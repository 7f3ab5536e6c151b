/** The destinations of a safe-copy request: one a target, whatever their order and however often they are repeated. */
module IntentDestinations {
  import opened Options
  import opened Json
  import opened TextOrder
  import opened IntentValues
  import opened IntentMappings
  import opened IntentDestination

  const MAX_DESTINATIONS: nat := 100

  /** The destinations so far, one a target, with the targets in the order in which they came. */
  datatype Gathered = Gathered(keys: seq<string>, byTarget: map<string, Destination>)

  function AddDestination(g: Gathered, d: Destination): Result<Gathered> {
    var id := d.target.targetId;
    if id !in g.byTarget then Ok(Gathered(g.keys + [id], g.byTarget[id := d]))
    else if g.byTarget[id] != d then Err(DuplicateTarget)
    else Ok(g)
  }

  function Gather(rules: Rules, items: seq<Json>, contentOnly: bool): Result<Gathered> {
    if items == [] then Ok(Gathered([], map[]))
    else
      var g :- Gather(rules, items[..|items| - 1], contentOnly);
      var d :- ParseDestination(rules, items[|items| - 1], contentOnly);
      AddDestination(g, d)
  }

  method GatherDestinations(rules: Rules, items: seq<Json>, contentOnly: bool) returns (r: Result<Gathered>)
    ensures r == Gather(rules, items, contentOnly)
  {
    hide ParseDestination;
    var g := Gathered([], map[]);
    for i := 0 to |items|
      invariant Gather(rules, items[..i], contentOnly) == Ok(g)
    {
      assert items[..i + 1][..i] == items[..i];
      var d := ParseDestination(rules, items[i], contentOnly);
      var next := if d.Err? then Err(d.code) else AddDestination(g, d.value);
      if next.Err? {
        GatherFailsOnceFailed(rules, items, contentOnly, i + 1);
        return next;
      }
      g := next.value;
    }
    assert items[..|items|] == items;
    return Ok(g);
  }

  lemma {:induction false} GatherFailsOnceFailed(rules: Rules, items: seq<Json>, contentOnly: bool, i: nat)
    requires i <= |items| && Gather(rules, items[..i], contentOnly).Err?
    ensures Gather(rules, items, contentOnly) == Gather(rules, items[..i], contentOnly)
    decreases |items| - i
  {
    hide ParseDestination, AddDestination;
    if i < |items| {
      assert items[..i + 1][..i] == items[..i];
      GatherFailsOnceFailed(rules, items, contentOnly, i + 1);
    } else {
      assert items[..i] == items;
    }
  }

  // ---------- what is gathered ----------

  predicate Parses(rules: Rules, contentOnly: bool, item: Json, d: Destination) {
    ParseDestination(rules, item, contentOnly) == Ok(d)
  }

  /** The map holds what this item parses to, under its target. */
  ghost predicate Placed(rules: Rules, contentOnly: bool, byTarget: map<string, Destination>, item: Json) {
    exists d :: Parses(rules, contentOnly, item, d) && d.target.targetId in byTarget && byTarget[d.target.targetId] == d
  }

  /** What the map holds for this target comes from one of the items. */
  ghost predicate Backed(rules: Rules, contentOnly: bool, items: seq<Json>, byTarget: map<string, Destination>, id: string)
    requires id in byTarget
  {
    byTarget[id].target.targetId == id && exists item :: item in items && Parses(rules, contentOnly, item, byTarget[id])
  }

  /** The map holds what the items parse to, under their targets, and nothing else. */
  ghost predicate Holds(rules: Rules, items: seq<Json>, contentOnly: bool, byTarget: map<string, Destination>) {
    && (forall item :: item in items ==> Placed(rules, contentOnly, byTarget, item))
    && (forall id :: id in byTarget ==> Backed(rules, contentOnly, items, byTarget, id))
  }

  lemma AddedHolds(rules: Rules, items: seq<Json>, contentOnly: bool, g: Gathered, item: Json, d: Destination)
    requires Holds(rules, items, contentOnly, g.byTarget) && Parses(rules, contentOnly, item, d)
    requires AddDestination(g, d).Ok?
    ensures Holds(rules, items + [item], contentOnly, AddDestination(g, d).value.byTarget)
  {
    hide *;
    var m, next, more := g.byTarget, AddDestination(g, d).value.byTarget, items + [item];
    AddedStays(g, d);
    HoldsMeans(rules, items, contentOnly, m);
    NewIsHeld(rules, contentOnly, more, next, item, d);
    assert item in more && forall x :: x in items ==> x in more;
    forall x | x in more
      ensures Placed(rules, contentOnly, next, x)
    {
      if x in items {
        PlacedStays(rules, contentOnly, m, next, x);
      }
    }
    forall id | id in next
      ensures Backed(rules, contentOnly, more, next, id)
    {
      if id in m {
        BackedStays(rules, contentOnly, items, more, m, next, id);
      }
    }
    HoldsMeans(rules, more, contentOnly, next);
  }

  lemma HoldsMeans(rules: Rules, items: seq<Json>, contentOnly: bool, byTarget: map<string, Destination>)
    ensures Holds(rules, items, contentOnly, byTarget)
            <==> && (forall item :: item in items ==> Placed(rules, contentOnly, byTarget, item))
                 && (forall id :: id in byTarget ==> Backed(rules, contentOnly, items, byTarget, id))
  {
    hide Placed, Backed;
  }

  lemma AddedStays(g: Gathered, d: Destination)
    requires AddDestination(g, d).Ok?
    ensures var next, id := AddDestination(g, d).value.byTarget, d.target.targetId;
            && (forall k :: k in next <==> k in g.byTarget || k == id)
            && (forall k :: k in g.byTarget ==> next[k] == g.byTarget[k]) && next[id] == d
  {}

  lemma NewIsHeld(rules: Rules, contentOnly: bool, items: seq<Json>, byTarget: map<string, Destination>, item: Json, d: Destination)
    requires Parses(rules, contentOnly, item, d) && item in items && d.target.targetId in byTarget && byTarget[d.target.targetId] == d
    ensures Placed(rules, contentOnly, byTarget, item) && Backed(rules, contentOnly, items, byTarget, d.target.targetId)
  {
    hide Parses;
  }

  lemma PlacedStays(rules: Rules, contentOnly: bool, m: map<string, Destination>, n: map<string, Destination>, item: Json)
    requires Placed(rules, contentOnly, m, item) && forall id :: id in m ==> id in n && n[id] == m[id]
    ensures Placed(rules, contentOnly, n, item)
  {
    hide Parses;
    var d :| Parses(rules, contentOnly, item, d) && d.target.targetId in m && m[d.target.targetId] == d;
    assert n[d.target.targetId] == d;
  }

  lemma BackedStays(rules: Rules, contentOnly: bool, items: seq<Json>, more: seq<Json>, m: map<string, Destination>, n: map<string, Destination>, id: string)
    requires id in m && Backed(rules, contentOnly, items, m, id) && (forall x :: x in items ==> x in more) && id in n && n[id] == m[id]
    ensures Backed(rules, contentOnly, more, n, id)
  {
    hide Parses;
  }

  lemma {:induction false} GatheredHolds(rules: Rules, items: seq<Json>, contentOnly: bool)
    requires Gather(rules, items, contentOnly).Ok?
    ensures var g := Gather(rules, items, contentOnly).value;
            && Holds(rules, items, contentOnly, g.byTarget)
            && (forall k :: k in g.keys <==> k in g.byTarget) && |g.keys| <= |items|
  {
    hide ParseDestination, Holds;
    if items != [] {
      var front, last := items[..|items| - 1], items[|items| - 1];
      GatheredHolds(rules, front, contentOnly);
      assert items == front + [last];
      AddedHolds(rules, front, contentOnly, Gather(rules, front, contentOnly).value, last, ParseDestination(rules, last, contentOnly).value);
    } else {
      NothingHeld(rules, contentOnly);
    }
  }

  lemma NothingHeld(rules: Rules, contentOnly: bool)
    ensures Holds(rules, [], contentOnly, map[])
  {}

  /** Gathering succeeds when some map places every item, and yields a part of that map. */
  lemma {:induction false} PlacedIsGathered(rules: Rules, items: seq<Json>, contentOnly: bool, byTarget: map<string, Destination>)
    requires forall item :: item in items ==> Placed(rules, contentOnly, byTarget, item)
    ensures Gather(rules, items, contentOnly).Ok?
    ensures forall id :: id in Gather(rules, items, contentOnly).value.byTarget ==> id in byTarget && Gather(rules, items, contentOnly).value.byTarget[id] == byTarget[id]
  {
    hide ParseDestination;
    if items != [] {
      var front, last := items[..|items| - 1], items[|items| - 1];
      assert forall item :: item in front ==> item in items;
      PlacedIsGathered(rules, front, contentOnly, byTarget);
      assert last in items && Placed(rules, contentOnly, byTarget, last);
      hide Placed;
    }
  }

  /** Destinations in another order, or repeated, are gathered to the same map. */
  lemma SameItemsSameMap(rules: Rules, a: seq<Json>, b: seq<Json>, contentOnly: bool)
    requires Gather(rules, a, contentOnly).Ok? && forall x :: x in a <==> x in b
    ensures Gather(rules, b, contentOnly).Ok?
    ensures Gather(rules, b, contentOnly).value.byTarget == Gather(rules, a, contentOnly).value.byTarget
  {
    hide Gather, Parses, Placed, Backed, Holds;
    GatheredHolds(rules, a, contentOnly);
    var m := Gather(rules, a, contentOnly).value.byTarget;
    HoldsMeans(rules, a, contentOnly, m);
    PlacedIsGathered(rules, b, contentOnly, m);
    GatheredHolds(rules, b, contentOnly);
    var again := Gather(rules, b, contentOnly).value.byTarget;
    HoldsMeans(rules, b, contentOnly, again);
    PlacedIsGathered(rules, a, contentOnly, again);
    assert m == again;
  }

  // ---------- the whole list ----------

  /** Where a destination's model is changed; in a content-only request, also the folder it is delivered to. */
  datatype ModelScope = ModelScope(instanceId: string, modelId: string, folder: string)

  function ScopeOf(rules: Rules, d: Destination, contentOnly: bool): ModelScope {
    ModelScope(d.target.instanceId, d.target.modelId,
               if !contentOnly then ""
               else if d.placement.folderId.Some? then d.placement.folderId.value
               else if d.placement.folderPath.Some? then rules.folder(d.placement.folderPath.value)
               else "")
  }

  predicate DistinctScopes(rules: Rules, byTarget: map<string, Destination>, contentOnly: bool) {
    forall a, b :: a in byTarget && b in byTarget && a != b ==> ScopeOf(rules, byTarget[a], contentOnly) != ScopeOf(rules, byTarget[b], contentOnly)
  }

  function ParseDestinations(rules: Rules, v: Option<Json>, contentOnly: bool): Result<seq<Destination>> {
    var _ :- Need(v.Some? && v.value.List? && v.value.items != [], InvalidDestination);
    var _ :- Need(|v.value.items| <= MAX_DESTINATIONS, LimitExceeded);
    var g :- Gather(rules, v.value.items, contentOnly);
    var _ :- Need(DistinctScopes(rules, g.byTarget, contentOnly), DuplicateTarget);
    GatheredHolds(rules, v.value.items, contentOnly);
    Ok(Arrange(g.byTarget, g.keys))
  }

  /** Destinations in another order, or repeated, parse to the same list. */
  lemma DestinationsInAnyOrder(rules: Rules, v: Option<Json>, w: Option<Json>, contentOnly: bool)
    requires v.Some? && v.value.List? && w.Some? && w.value.List?
    requires |w.value.items| <= MAX_DESTINATIONS && forall x :: x in v.value.items <==> x in w.value.items
    ensures ParseDestinations(rules, v, contentOnly).Ok? ==>
              ParseDestinations(rules, w, contentOnly) == ParseDestinations(rules, v, contentOnly)
  {
    if ParseDestinations(rules, v, contentOnly).Ok? {
      var a, b := v.value.items, w.value.items;
      assert a[0] in b;
      SameItemsSameMap(rules, a, b, contentOnly);
      GatheredHolds(rules, a, contentOnly);
      GatheredHolds(rules, b, contentOnly);
      hide Gather, Holds, DistinctScopes;
      ArrangeIsDetermined(Gather(rules, a, contentOnly).value.byTarget, Gather(rules, a, contentOnly).value.keys, Gather(rules, b, contentOnly).value.keys);
    }
  }

  // ---------- canonical lists ----------

  function TargetIds(ds: seq<Destination>): (ids: seq<string>)
    ensures |ids| == |ds| && forall i :: 0 <= i < |ds| ==> ids[i] == ds[i].target.targetId
  {
    seq(|ds|, i requires 0 <= i < |ds| => ds[i].target.targetId)
  }

  predicate ApartScopes(rules: Rules, ds: seq<Destination>, contentOnly: bool) {
    forall i, j :: 0 <= i < j < |ds| ==> ScopeOf(rules, ds[i], contentOnly) != ScopeOf(rules, ds[j], contentOnly)
  }

  predicate ReadsBack(rules: Rules, d: Destination, contentOnly: bool) {
    ParseDestination(rules, DestinationJson(d), contentOnly) == Ok(d)
  }

  /** In the order of their targets, each for another model scope. */
  predicate Ordered(rules: Rules, ds: seq<Destination>, contentOnly: bool) {
    0 < |ds| <= MAX_DESTINATIONS && Increasing(TargetIds(ds)) && ApartScopes(rules, ds, contentOnly)
  }

  predicate CanonicalDestinations(rules: Rules, ds: seq<Destination>, contentOnly: bool) {
    Ordered(rules, ds, contentOnly) && forall i :: 0 <= i < |ds| ==> ReadsBack(rules, ds[i], contentOnly)
  }

  function DestinationList(ds: seq<Destination>): (items: seq<Json>)
    ensures |items| == |ds| && forall i :: 0 <= i < |ds| ==> items[i] == DestinationJson(ds[i])
  {
    seq(|ds|, i requires 0 <= i < |ds| => DestinationJson(ds[i]))
  }

  lemma ArrangedDestinations(rules: Rules, g: Gathered, contentOnly: bool) returns (ds: seq<Destination>)
    requires (forall k :: k in g.keys <==> k in g.byTarget) && 0 < |g.keys| <= MAX_DESTINATIONS
    requires (forall id :: id in g.byTarget ==> g.byTarget[id].target.targetId == id) && DistinctScopes(rules, g.byTarget, contentOnly)
    ensures ds == Arrange(g.byTarget, g.keys) && Ordered(rules, ds, contentOnly)
    ensures forall i :: 0 <= i < |ds| ==> ds[i].target.targetId in g.byTarget && g.byTarget[ds[i].target.targetId] == ds[i]
  {
    ds := Arrange(g.byTarget, g.keys);
    var ids := Sorted(g.keys);
    SortedIsIncreasing(g.keys);
    SortedIsNoLonger(g.keys);
    assert g.keys[0] in ids;
    hide Sorted, ScopeOf;
    forall i | 0 <= i < |ds|
      ensures ids[i] in g.byTarget && ds[i] == g.byTarget[ids[i]] && ds[i].target.targetId == ids[i]
    {
      assert ids[i] in ids;
    }
    assert TargetIds(ds) == ids;
    forall i, j | 0 <= i < j < |ds|
      ensures ScopeOf(rules, ds[i], contentOnly) != ScopeOf(rules, ds[j], contentOnly)
    {
      assert Before(ids[i], ids[j]);
    }
  }

  lemma GatheredIsNotEmpty(rules: Rules, items: seq<Json>, contentOnly: bool, g: Gathered)
    requires Gather(rules, items, contentOnly) == Ok(g) && items != []
    ensures g.keys != []
  {
    GatheredHolds(rules, items, contentOnly);
    assert items[0] in items;
    hide Gather, Parses, Backed;
    assert Placed(rules, contentOnly, g.byTarget, items[0]);
  }

  ghost predicate IsParsed(rules: Rules, contentOnly: bool, d: Destination) {
    exists item :: Parses(rules, contentOnly, item, d)
  }

  lemma HeldAreParsed(rules: Rules, items: seq<Json>, contentOnly: bool, byTarget: map<string, Destination>)
    requires Holds(rules, items, contentOnly, byTarget)
    ensures forall id :: id in byTarget ==> byTarget[id].target.targetId == id && IsParsed(rules, contentOnly, byTarget[id])
  {}

  /** A parsed list is in order, and each of its destinations is what some item parses to. */
  lemma ParsedDestinations(rules: Rules, v: Option<Json>, contentOnly: bool)
    requires ParseDestinations(rules, v, contentOnly).Ok?
    ensures var ds := ParseDestinations(rules, v, contentOnly).value;
            Ordered(rules, ds, contentOnly) && forall i :: 0 <= i < |ds| ==> IsParsed(rules, contentOnly, ds[i])
  {
    var items := v.value.items;
    var g := Gather(rules, items, contentOnly).value;
    GatheredHolds(rules, items, contentOnly);
    GatheredIsNotEmpty(rules, items, contentOnly, g);
    hide Gather, IsParsed, Arrange, DistinctScopes, Ordered;
    HeldAreParsed(rules, items, contentOnly, g.byTarget);
    hide Holds;
    var ds := ArrangedDestinations(rules, g, contentOnly);
  }

  // ---------- reading a list back ----------

  /** Items that parse to destinations with increasing targets and apart scopes parse to just those. */
  lemma OrderedRead(rules: Rules, items: seq<Json>, ds: seq<Destination>, contentOnly: bool)
    requires |items| == |ds| && forall i :: 0 <= i < |ds| ==> Parses(rules, contentOnly, items[i], ds[i])
    requires Ordered(rules, ds, contentOnly)
    ensures ParseDestinations(rules, Some(List(items)), contentOnly) == Ok(ds)
  {
    OrderedGathers(rules, items, ds, contentOnly);
    OrderedScopes(rules, ds, contentOnly);
    ArrangeInOrder(TargetIds(ds), ds);
    var g := GatheredFrom(ds);
    hide Gather, Parses, DistinctScopes, Arrange, ByKey, TargetIds, Increasing, ApartScopes, ParseDestinations;
    GatheredParse(rules, items, ds, contentOnly, g);
  }

  lemma GatheredParse(rules: Rules, items: seq<Json>, ds: seq<Destination>, contentOnly: bool, g: Gathered)
    requires 0 < |items| <= MAX_DESTINATIONS && Gather(rules, items, contentOnly) == Ok(g) && DistinctScopes(rules, g.byTarget, contentOnly)
    requires (forall k :: k in g.keys ==> k in g.byTarget) && Arrange(g.byTarget, g.keys) == ds
    ensures ParseDestinations(rules, Some(List(items)), contentOnly) == Ok(ds)
  {
    hide Gather, DistinctScopes, Arrange;
  }

  lemma OrderedScopes(rules: Rules, ds: seq<Destination>, contentOnly: bool)
    requires ApartScopes(rules, ds, contentOnly)
    ensures DistinctScopes(rules, ByKey(TargetIds(ds), ds), contentOnly)
  {
    var ids := TargetIds(ds);
    var m := ByKey(ids, ds);
    hide ScopeOf, ByKey;
    forall a, b | a in m && b in m && a != b
      ensures ScopeOf(rules, m[a], contentOnly) != ScopeOf(rules, m[b], contentOnly)
    {
      var i := ByKeyIsAValue(ids, ds, a);
      var j := ByKeyIsAValue(ids, ds, b);
    }
  }

  lemma GatherOneMore(rules: Rules, items: seq<Json>, contentOnly: bool, g: Gathered, item: Json, d: Destination)
    requires Gather(rules, items, contentOnly) == Ok(g) && Parses(rules, contentOnly, item, d) && d.target.targetId !in g.byTarget
    ensures Gather(rules, items + [item], contentOnly) == Ok(Gathered(g.keys + [d.target.targetId], g.byTarget[d.target.targetId := d]))
  {
    hide ParseDestination;
    assert (items + [item])[..|items|] == items;
  }

  predicate EachParses(rules: Rules, items: seq<Json>, ds: seq<Destination>, contentOnly: bool) {
    |items| == |ds| && forall i :: 0 <= i < |ds| ==> Parses(rules, contentOnly, items[i], ds[i])
  }

  /** What a list of destinations with increasing targets is gathered to. */
  function GatheredFrom(ds: seq<Destination>): Gathered {
    Gathered(TargetIds(ds), ByKey(TargetIds(ds), ds))
  }

  lemma TargetIdsGrow(ds: seq<Destination>, d: Destination)
    ensures TargetIds(ds + [d]) == TargetIds(ds) + [d.target.targetId]
    ensures GatheredFrom(ds + [d]) == Gathered(GatheredFrom(ds).keys + [d.target.targetId], GatheredFrom(ds).byTarget[d.target.targetId := d])
  {
    ByKeyGrows(TargetIds(ds), ds, d.target.targetId, d);
    hide ByKey;
  }

  lemma LastTargetIsNew(ds: seq<Destination>, d: Destination)
    requires Increasing(TargetIds(ds + [d]))
    ensures Increasing(TargetIds(ds)) && d.target.targetId !in GatheredFrom(ds).byTarget
  {
    var ids := TargetIds(ds) + [d.target.targetId];
    TargetIdsGrow(ds, d);
    hide Increasing, TargetIds;
    LastIsNew(ids);
    FrontIncreases(ids, |ds|);
    assert ids[..|ds|] == TargetIds(ds);
  }

  lemma {:induction false} OrderedGathers(rules: Rules, items: seq<Json>, ds: seq<Destination>, contentOnly: bool)
    requires EachParses(rules, items, ds, contentOnly) && Increasing(TargetIds(ds))
    ensures Gather(rules, items, contentOnly) == Ok(GatheredFrom(ds))
  {
    hide Parses, Increasing;
    if items != [] {
      var n := |ds| - 1;
      var front, rest := items[..n], ds[..n];
      assert items == front + [items[n]] && ds == rest + [ds[n]];
      assert EachParses(rules, front, rest, contentOnly) && Parses(rules, contentOnly, items[n], ds[n]);
      hide *;
      LastTargetIsNew(rest, ds[n]);
      OrderedGathers(rules, front, rest, contentOnly);
      GatherOneMore(rules, front, contentOnly, GatheredFrom(rest), items[n], ds[n]);
      TargetIdsGrow(rest, ds[n]);
    }
  }

  /** A list written and read again comes back the same exactly when every destination does. */
  lemma ListReadsBack(rules: Rules, ds: seq<Destination>, contentOnly: bool)
    requires Ordered(rules, ds, contentOnly)
    requires forall i :: 0 <= i < |ds| ==> ParseDestination(rules, DestinationJson(ds[i]), contentOnly).Ok?
    requires forall i :: 0 <= i < |ds| ==>
               var again := ParseDestination(rules, DestinationJson(ds[i]), contentOnly).value;
               again.target == ds[i].target && again.placement == ds[i].placement
    ensures ParseDestinations(rules, Some(List(DestinationList(ds))), contentOnly).Ok?
    ensures ParseDestinations(rules, Some(List(DestinationList(ds))), contentOnly) == Ok(ds)
            <==> forall i :: 0 <= i < |ds| ==> ReadsBack(rules, ds[i], contentOnly)
  {
    hide ParseDestination, DestinationJson;
    var items := DestinationList(ds);
    var again := seq(|ds|, i requires 0 <= i < |ds| => ParseDestination(rules, DestinationJson(ds[i]), contentOnly).value);
    forall i | 0 <= i < |ds|
      ensures Parses(rules, contentOnly, items[i], again[i]) && ScopeOf(rules, again[i], contentOnly) == ScopeOf(rules, ds[i], contentOnly)
      ensures again[i] == ds[i] <==> ReadsBack(rules, ds[i], contentOnly)
    {
      assert items[i] == DestinationJson(ds[i]);
    }
    assert TargetIds(again) == TargetIds(ds);
    hide ScopeOf, ReadsBack, Parses;
    OrderedRead(rules, items, again, contentOnly);
    if forall i :: 0 <= i < |ds| ==> again[i] == ds[i] {
      assert again == ds;
    }
  }
}

/** Which request bodies parse, told by their fields, and what the parsed request says. */
module BodyParses {
  import opened Options
  import opened Json
  import opened TextOrder
  import opened RequestIdentity
  import opened IntentValues
  import opened IntentBindings
  import opened IntentMappings
  import opened IntentDestination
  import opened IntentSource
  import opened IntentDestinations
  import opened IntentEvidence
  import opened Intent
  import opened IntentSettling
  import opened BodyFields
  import opened BodyEvidence

  // ---------- the list of destinations ----------

  function TargetName(item: Json): string {
    NameOf(Get(item, "targetId"))
  }

  /** Where the model of a destination is changed; in a content-only request also the folder it is delivered to. */
  function ScopeName(rules: Rules, item: Json, contentOnly: bool): (string, string, string) {
    (NameOf(Get(item, "instanceId")), NameOf(Get(item, "modelId")),
     if !contentOnly then ""
     else if Get(item, "folderId").Some? then NameOf(Get(item, "folderId"))
     else if Get(item, "folderPath").Some? then rules.folder(NameOf(Get(item, "folderPath")))
     else "")
  }

  predicate ReadAlike(rules: Rules, a: Json, b: Json, contentOnly: bool) {
    ParseDestination(rules, a, contentOnly) == ParseDestination(rules, b, contentOnly)
  }

  predicate AllDestinations(rules: Rules, items: seq<Json>, contentOnly: bool) {
    forall item :: item in items ==> IsDestination(rules, item, contentOnly)
  }

  /** Two items of one target say the same, */
  predicate NoConflict(rules: Rules, items: seq<Json>, contentOnly: bool) {
    forall a, b :: a in items && b in items && TargetName(a) == TargetName(b) ==> ReadAlike(rules, a, b, contentOnly)
  }

  /** and two of different targets are for different scopes. */
  predicate OneScopeEach(rules: Rules, items: seq<Json>, contentOnly: bool) {
    forall a, b :: a in items && b in items && TargetName(a) != TargetName(b) ==> ScopeName(rules, a, contentOnly) != ScopeName(rules, b, contentOnly)
  }

  predicate AreDestinations(rules: Rules, v: Option<Json>, contentOnly: bool) {
    && v.Some? && v.value.List? && 1 <= |v.value.items| <= 100
    && AllDestinations(rules, v.value.items, contentOnly)
    && NoConflict(rules, v.value.items, contentOnly) && OneScopeEach(rules, v.value.items, contentOnly)
  }

  lemma ItemSays(rules: Rules, item: Json, contentOnly: bool, d: Destination)
    requires Parses(rules, contentOnly, item, d)
    ensures IsDestination(rules, item, contentOnly) && SaysDestination(item, d)
    ensures d.target.targetId == TargetName(item)
    ensures var scope := ScopeOf(rules, d, contentOnly); ScopeName(rules, item, contentOnly) == (scope.instanceId, scope.modelId, scope.folder)
  {
    DestinationExactly(rules, item, contentOnly);
    hide ParseDestination, IsDestination, NameOf, Get;
  }

  /** All items of its target say the same as this one. */
  predicate AgreesWith(rules: Rules, items: seq<Json>, last: Json, contentOnly: bool) {
    forall a :: a in items && TargetName(a) == TargetName(last) ==> ReadAlike(rules, a, last, contentOnly)
  }

  lemma {:induction false} GatherExactly(rules: Rules, items: seq<Json>, contentOnly: bool)
    ensures Gather(rules, items, contentOnly).Ok? <==> AllDestinations(rules, items, contentOnly) && NoConflict(rules, items, contentOnly)
  {
    hide ParseDestination, IsDestination, TargetName, AddDestination, AllDestinations, NoConflict, AgreesWith;
    if items != [] {
      var front, last := items[..|items| - 1], items[|items| - 1];
      GatherExactly(rules, front, contentOnly);
      assert items == front + [last];
      ItemsGrow(rules, front, last, contentOnly);
      DestinationExactly(rules, last, contentOnly);
      if Gather(rules, front, contentOnly).Ok? && IsDestination(rules, last, contentOnly) {
        GatherNext(rules, front, last, contentOnly);
      }
    } else {
      NoItems(rules, contentOnly);
    }
  }

  lemma NoItems(rules: Rules, contentOnly: bool)
    ensures AllDestinations(rules, [], contentOnly) && NoConflict(rules, [], contentOnly)
  {}

  lemma ItemsGrow(rules: Rules, front: seq<Json>, last: Json, contentOnly: bool)
    ensures AllDestinations(rules, front + [last], contentOnly) <==> AllDestinations(rules, front, contentOnly) && IsDestination(rules, last, contentOnly)
    ensures NoConflict(rules, front + [last], contentOnly) <==> NoConflict(rules, front, contentOnly) && AgreesWith(rules, front, last, contentOnly)
  {
    hide IsDestination, TargetName, ParseDestination;
    forall x
      ensures x in front + [last] <==> x in front || x == last
    {}
    assert last in front + [last];
  }

  lemma GatherNext(rules: Rules, front: seq<Json>, last: Json, contentOnly: bool)
    requires Gather(rules, front, contentOnly).Ok? && IsDestination(rules, last, contentOnly) && ParseDestination(rules, last, contentOnly).Ok?
    ensures AddDestination(Gather(rules, front, contentOnly).value, ParseDestination(rules, last, contentOnly).value).Ok?
            <==> AgreesWith(rules, front, last, contentOnly)
  {
    hide Gather, ParseDestination, IsDestination, SaysDestination, TargetName, Holds, ScopeOf, ScopeName;
    var m, d := Gather(rules, front, contentOnly).value.byTarget, ParseDestination(rules, last, contentOnly).value;
    GatheredHolds(rules, front, contentOnly);
    ItemSays(rules, last, contentOnly, d);
    forall a | a in front && TargetName(a) == TargetName(last)
      ensures d.target.targetId in m && ParseDestination(rules, a, contentOnly) == Ok(m[d.target.targetId])
    {
      HeldUnder(rules, front, contentOnly, m, a);
    }
    if d.target.targetId in m {
      var a := ItemOf(rules, front, contentOnly, m, d.target.targetId);
    }
  }

  lemma HeldUnder(rules: Rules, items: seq<Json>, contentOnly: bool, byTarget: map<string, Destination>, item: Json)
    requires Holds(rules, items, contentOnly, byTarget) && item in items
    ensures TargetName(item) in byTarget && ParseDestination(rules, item, contentOnly) == Ok(byTarget[TargetName(item)])
  {
    hide ParseDestination, TargetName, IsDestination, SaysDestination;
    assert Placed(rules, contentOnly, byTarget, item);
    var d :| Parses(rules, contentOnly, item, d) && d.target.targetId in byTarget && byTarget[d.target.targetId] == d;
    ItemSays(rules, item, contentOnly, d);
  }

  lemma ScopesExactly(rules: Rules, items: seq<Json>, contentOnly: bool, byTarget: map<string, Destination>)
    requires Holds(rules, items, contentOnly, byTarget)
    ensures DistinctScopes(rules, byTarget, contentOnly) <==> OneScopeEach(rules, items, contentOnly)
  {
    hide Parses, ScopeOf, ScopeName, TargetName, IsDestination, SaysDestination;
    if OneScopeEach(rules, items, contentOnly) {
      forall a, b | a in byTarget && b in byTarget && a != b
        ensures ScopeOf(rules, byTarget[a], contentOnly) != ScopeOf(rules, byTarget[b], contentOnly)
      {
        var x := ItemOf(rules, items, contentOnly, byTarget, a);
        var y := ItemOf(rules, items, contentOnly, byTarget, b);
      }
    }
    if DistinctScopes(rules, byTarget, contentOnly) {
      forall x, y | x in items && y in items && TargetName(x) != TargetName(y)
        ensures ScopeName(rules, x, contentOnly) != ScopeName(rules, y, contentOnly)
      {
        PlaceOfItem(rules, items, contentOnly, byTarget, x);
        PlaceOfItem(rules, items, contentOnly, byTarget, y);
      }
    }
  }

  lemma ItemOf(rules: Rules, items: seq<Json>, contentOnly: bool, byTarget: map<string, Destination>, id: string) returns (item: Json)
    requires Holds(rules, items, contentOnly, byTarget) && id in byTarget
    ensures item in items && TargetName(item) == id
    ensures var scope := ScopeOf(rules, byTarget[id], contentOnly);
            ScopeName(rules, item, contentOnly) == (scope.instanceId, scope.modelId, scope.folder)
  {
    hide Parses, ScopeOf, ScopeName, TargetName, IsDestination, SaysDestination;
    assert Backed(rules, contentOnly, items, byTarget, id);
    item :| item in items && Parses(rules, contentOnly, item, byTarget[id]);
    ItemSays(rules, item, contentOnly, byTarget[id]);
  }

  lemma PlaceOfItem(rules: Rules, items: seq<Json>, contentOnly: bool, byTarget: map<string, Destination>, item: Json)
    requires Holds(rules, items, contentOnly, byTarget) && item in items
    ensures TargetName(item) in byTarget
    ensures var scope := ScopeOf(rules, byTarget[TargetName(item)], contentOnly);
            ScopeName(rules, item, contentOnly) == (scope.instanceId, scope.modelId, scope.folder)
  {
    hide Parses, ScopeOf, ScopeName, TargetName, IsDestination, SaysDestination;
    assert Placed(rules, contentOnly, byTarget, item);
    var d :| Parses(rules, contentOnly, item, d) && d.target.targetId in byTarget && byTarget[d.target.targetId] == d;
    ItemSays(rules, item, contentOnly, d);
  }

  lemma DestinationsExactly(rules: Rules, v: Option<Json>, contentOnly: bool)
    ensures ParseDestinations(rules, v, contentOnly).Ok? <==> AreDestinations(rules, v, contentOnly)
  {
    hide Gather, DistinctScopes, OneScopeEach, NoConflict, AllDestinations, Arrange;
    if v.Some? && v.value.List? {
      GatherExactly(rules, v.value.items, contentOnly);
      if Gather(rules, v.value.items, contentOnly).Ok? {
        GatheredHolds(rules, v.value.items, contentOnly);
        hide Holds;
        ScopesExactly(rules, v.value.items, contentOnly, Gather(rules, v.value.items, contentOnly).value.byTarget);
      }
    }
  }

  // ---------- what the parsed list says ----------

  function TargetNames(items: seq<Json>): set<string> {
    set item | item in items :: TargetName(item)
  }

  predicate SomeStaging(items: seq<Json>) {
    exists item :: item in items && Get(item, "workbookCopy").Some?
  }

  predicate SomeBindings(items: seq<Json>) {
    exists item :: item in items && HasBindings(item)
  }

  lemma {:induction false} IncreasingSize(s: seq<string>)
    requires Increasing(s)
    ensures |s| == |set x | x in s|
  {
    if s != [] {
      var n := |s| - 1;
      FrontIncreases(s, n);
      IncreasingSize(s[..n]);
      LastIsNew(s);
      hide Increasing;
      var front := s[..n];
      assert s == front + [s[n]];
      assert (set x | x in s) == (set x | x in front) + {s[n]};
    }
  }

  predicate SaysSome(item: Json, ds: seq<Destination>) {
    exists d :: d in ds && Said(item, d)
  }

  predicate SaidBySome(items: seq<Json>, d: Destination) {
    exists item :: item in items && Said(item, d)
  }

  predicate StagesSome(ds: seq<Destination>) {
    exists d :: d in ds && d.placement.stagingFolderId.Some?
  }

  predicate BindsSome(ds: seq<Destination>) {
    exists d :: d in ds && d.placement.bindings.Some? && d.placement.bindings.value != []
  }

  function IdsOf(ds: seq<Destination>): set<string> {
    set d | d in ds :: d.target.targetId
  }

  lemma ListSays(rules: Rules, v: Option<Json>, contentOnly: bool)
    requires ParseDestinations(rules, v, contentOnly).Ok?
    ensures v.Some? && v.value.List?
    ensures var ds, items := ParseDestinations(rules, v, contentOnly).value, v.value.items;
            && IdsOf(ds) == TargetNames(items) && |ds| == |TargetNames(items)|
            && (StagesSome(ds) <==> SomeStaging(items)) && (BindsSome(ds) <==> SomeBindings(items))
  {
    hide ParseDestinations, SaysSome, SaidBySome, StagesSome, BindsSome, IdsOf, TargetNames, SomeStaging, SomeBindings, Increasing, ApartScopes,
         IsParsed, Parses, Said;
    IsList(rules, v, contentOnly);
    var ds, items := ParseDestinations(rules, v, contentOnly).value, v.value.items;
    ParsedDestinations(rules, v, contentOnly);
    forall item | item in items
      ensures SaysSome(item, ds)
    {
      ItemIsInList(rules, v, contentOnly, item);
    }
    forall d | d in ds
      ensures SaidBySome(items, d)
    {
      ListedIsSaid(rules, v, contentOnly, d);
    }
    SaidIds(items, ds);
    SaidStaging(items, ds);
    SaidBindings(items, ds);
    IncreasingSize(TargetIds(ds));
    SameIds(ds);
  }

  lemma ItemIsInList(rules: Rules, v: Option<Json>, contentOnly: bool, item: Json)
    requires ParseDestinations(rules, v, contentOnly).Ok? && v.Some? && v.value.List? && item in v.value.items
    ensures SaysSome(item, ParseDestinations(rules, v, contentOnly).value)
  {
    hide ParseDestinations, Parses, Said;
    var k := ItemIsListed(rules, v, contentOnly, item);
    ItemIsSaid(rules, item, contentOnly, ParseDestinations(rules, v, contentOnly).value[k]);
  }

  lemma ListedIsSaid(rules: Rules, v: Option<Json>, contentOnly: bool, d: Destination)
    requires ParseDestinations(rules, v, contentOnly).Ok? && v.Some? && v.value.List? && d in ParseDestinations(rules, v, contentOnly).value
    ensures SaidBySome(v.value.items, d)
  {
    hide ParseDestinations, Parses, Said;
    var ds := ParseDestinations(rules, v, contentOnly).value;
    var k :| 0 <= k < |ds| && ds[k] == d;
    var item := ListedIsItem(rules, v, contentOnly, k);
    ItemIsSaid(rules, item, contentOnly, d);
  }

  lemma SameIds(ds: seq<Destination>)
    ensures (set x | x in TargetIds(ds)) == IdsOf(ds)
  {
    forall x
      ensures x in TargetIds(ds) <==> x in IdsOf(ds)
    {
      if x in TargetIds(ds) {
        var i :| 0 <= i < |ds| && TargetIds(ds)[i] == x;
        assert ds[i] in ds;
      }
      if d :| d in ds && d.target.targetId == x {
        var i :| 0 <= i < |ds| && ds[i] == d;
        assert TargetIds(ds)[i] == x;
      }
    }
  }

  /** What the fields of an item say of the target, of staging and of bindings. */
  predicate Said(item: Json, d: Destination) {
    && d.target.targetId == TargetName(item)
    && (d.placement.stagingFolderId.Some? <==> Get(item, "workbookCopy").Some?)
    && (HasBindings(item) <==> d.placement.bindings.Some? && d.placement.bindings.value != [])
  }

  lemma ItemIsSaid(rules: Rules, item: Json, contentOnly: bool, d: Destination)
    requires Parses(rules, contentOnly, item, d)
    ensures Said(item, d)
  {
    ItemSays(rules, item, contentOnly, d);
    hide Parses, IsDestination, NameOf, Get, HasBindings;
  }

  lemma SaidIds(items: seq<Json>, ds: seq<Destination>)
    requires (forall item :: item in items ==> SaysSome(item, ds)) && forall d :: d in ds ==> SaidBySome(items, d)
    ensures IdsOf(ds) == TargetNames(items)
  {
    hide TargetName, HasBindings, Get, SaysSome, SaidBySome;
    forall x
      ensures x in IdsOf(ds) <==> x in TargetNames(items)
    {
      if x in IdsOf(ds) {
        var d :| d in ds && d.target.targetId == x;
        var item := SayerOf(items, d);
      }
      if x in TargetNames(items) {
        var item :| item in items && TargetName(item) == x;
        var d := SaidOf(item, ds);
      }
    }
  }

  lemma SayerOf(items: seq<Json>, d: Destination) returns (item: Json)
    requires SaidBySome(items, d)
    ensures item in items && Said(item, d)
  {
    item :| item in items && Said(item, d);
  }

  lemma SaidOf(item: Json, ds: seq<Destination>) returns (d: Destination)
    requires SaysSome(item, ds)
    ensures d in ds && Said(item, d)
  {
    d :| d in ds && Said(item, d);
  }

  lemma SaidStaging(items: seq<Json>, ds: seq<Destination>)
    requires (forall item :: item in items ==> SaysSome(item, ds)) && forall d :: d in ds ==> SaidBySome(items, d)
    ensures StagesSome(ds) <==> SomeStaging(items)
  {
    hide TargetName, HasBindings, Get, SaysSome, SaidBySome;
    if StagesSome(ds) {
      var d :| d in ds && d.placement.stagingFolderId.Some?;
      var item := SayerOf(items, d);
    }
    if SomeStaging(items) {
      var item :| item in items && Get(item, "workbookCopy").Some?;
      var d := SaidOf(item, ds);
    }
  }

  lemma SaidBindings(items: seq<Json>, ds: seq<Destination>)
    requires (forall item :: item in items ==> SaysSome(item, ds)) && forall d :: d in ds ==> SaidBySome(items, d)
    ensures BindsSome(ds) <==> SomeBindings(items)
  {
    hide TargetName, HasBindings, Get, SaysSome, SaidBySome;
    if BindsSome(ds) {
      var d :| d in ds && d.placement.bindings.Some? && d.placement.bindings.value != [];
      var item := SayerOf(items, d);
    }
    if SomeBindings(items) {
      var item :| item in items && HasBindings(item);
      var d := SaidOf(item, ds);
    }
  }

  // ---------- the body ----------

  predicate IsRequestId(v: Option<Json>) {
    IsName(v, 256) && IsUuid(Lower(NameOf(v)))
  }

  /** In a content-only request options are absent, or an object in which all of these that there are are false. */
  predicate AreOptions(v: Option<Json>, contentOnly: bool) {
    contentOnly && v.Some? ==>
      && v.value.Object? && v.value.fields.Keys <= {"emptyFirst", "deleteSourceOnSuccess", "refreshSchemaOnComplete"}
      && forall k :: k in v.value.fields ==> v.value.fields[k] == Bool(false)
  }

  /** A package is part of the evidence. */
  predicate HasPackage(v: Option<Json>) {
    v.Some? && Get(v.value, "packageCopy").Some?
  }

  predicate IsBody(rules: Rules, v: Json, plan: bool) {
    && v.Object?
    && v.fields.Keys <= {"profile", "requestId", "source", "destinations", "options", "deployment"}
    && Get(v, "profile") == Some(Text("safe_copy_v1"))
    && IsRequestId(Get(v, "requestId"))
    && IsSource(Get(v, "source"))
    && var contentOnly := plan || Get(v, "deployment").Some?;
       && AreDestinations(rules, Get(v, "destinations"), contentOnly)
       && var items, documents := Get(v, "destinations").value.items, NamesOf(Get(Get(v, "source").value, "documentIds").value.items);
          && (Get(v, "deployment").Some? ==>
                IsEvidence(rules, Get(v, "deployment").value, documents, TargetNames(items), SomeStaging(items)))
          && (!plan && SomeBindings(items) ==> HasPackage(Get(v, "deployment")))
          && AreOptions(Get(v, "options"), contentOnly)
          && |documents| * |TargetNames(items)| <= 1000
  }

  lemma RequestIdExactly(v: Option<Json>)
    ensures ParseRequestId(v).Ok? <==> IsRequestId(v)
    ensures IsRequestId(v) ==> ParseRequestId(v) == Ok(Lower(NameOf(v)))
  {
    hide Bounded, IsName, NameOf, IsUuid, Lower;
    BoundedExactly(v, 256, InvalidRequestId);
  }

  lemma OptionsExactly(v: Option<Json>, contentOnly: bool)
    ensures OptionsAllowed(contentOnly, v) <==> AreOptions(v, contentOnly)
  {}

  lemma DocumentsSay(v: Option<Json>)
    requires IsSource(v)
    ensures ParseSource(v).Ok?
    ensures var s, names := ParseSource(v).value, NamesOf(Get(v.value, "documentIds").value.items);
            (set x | x in s.documentIds) == names && |s.documentIds| == |names|
  {
    SourceExactly(v);
    hide ParseSource, Increasing, NamesOf, NameOf;
    IncreasingSize(ParseSource(v).value.documentIds);
  }

  /** The parts of a body that parse one after the other. */
  lemma PartsExactly(rules: Rules, v: Json, plan: bool)
    ensures ParseIntent(rules, v, plan).Ok? <==>
            && v.Object? && OnlyKeys(v, BODY_KEYS) && Get(v, PROFILE) == Some(Text(PROFILE_NAME))
            && ParseRequestId(Get(v, REQUEST_ID)).Ok? && ParseSource(Get(v, SOURCE)).Ok?
            && var contentOnly := plan || Get(v, DEPLOYMENT).Some?;
               && ParseDestinations(rules, Get(v, DESTINATIONS), contentOnly).Ok?
               && var source, ds := ParseSource(Get(v, SOURCE)).value, ParseDestinations(rules, Get(v, DESTINATIONS), contentOnly).value;
                  && ParseEvidence(rules, source, ds, Get(v, DEPLOYMENT)).Ok?
                  && BindingsApproved(plan, ds, ParseEvidence(rules, source, ds, Get(v, DEPLOYMENT)).value)
                  && OptionsAllowed(contentOnly, Get(v, OPTIONS))
                  && |source.documentIds| * |ds| <= MAX_MATRIX_CELLS
  {
    hide OnlyKeys, Get, ParseRequestId, ParseSource, ParseDestinations, ParseEvidence, BindingsApproved, OptionsAllowed, ReadOptions;
  }

  /** Evidence and approval of a body whose source and destinations parse. */
  lemma ApprovalExactly(rules: Rules, v: Json, plan: bool, contentOnly: bool)
    requires IsSource(Get(v, "source")) && ParseDestinations(rules, Get(v, "destinations"), contentOnly).Ok?
    ensures ParseSource(Get(v, "source")).Ok?
    ensures var source, ds := ParseSource(Get(v, "source")).value, ParseDestinations(rules, Get(v, "destinations"), contentOnly).value;
            var evidence := ParseEvidence(rules, source, ds, Get(v, "deployment"));
            var items, documents := Get(v, "destinations").value.items, NamesOf(Get(Get(v, "source").value, "documentIds").value.items);
            && (evidence.Ok? <==> (Get(v, "deployment").Some? ==>
                                     IsEvidence(rules, Get(v, "deployment").value, documents, TargetNames(items), SomeStaging(items))))
            && (evidence.Ok? ==> (BindingsApproved(plan, ds, evidence.value) <==> (!plan && SomeBindings(items) ==> HasPackage(Get(v, "deployment")))))
            && |source.documentIds| * |ds| == |documents| * |TargetNames(items)|
  {
    DocumentsSay(Get(v, "source"));
    ListSays(rules, Get(v, "destinations"), contentOnly);
    var source, ds := ParseSource(Get(v, "source")).value, ParseDestinations(rules, Get(v, "destinations"), contentOnly).value;
    var items, documents := Get(v, "destinations").value.items, NamesOf(Get(Get(v, "source").value, "documentIds").value.items);
    hide ParseSource, ParseDestinations, ParseDeployment, IsEvidence, NamesOf, TargetNames, SomeStaging, SomeBindings, IsSource, Get;
    assert ScopeFor(source, ds) == Scope(documents, TargetNames(items), SomeStaging(items));
    if Get(v, "deployment").Some? {
      EvidenceExactly(rules, Get(v, "deployment").value, documents, TargetNames(items), SomeStaging(items));
    }
  }

  /** A body parses exactly when its fields are as they have to be. */
  lemma ParsesExactly(rules: Rules, v: Json, plan: bool)
    ensures ParseIntent(rules, v, plan).Ok? <==> IsBody(rules, v, plan)
  {
    hide ParseIntent, Get, ParseRequestId, IsRequestId, ParseSource, IsSource, ParseDestinations, AreDestinations, ParseEvidence,
         BindingsApproved, OptionsAllowed, AreOptions, IsEvidence, NamesOf, TargetNames, SomeStaging, SomeBindings, HasPackage;
    PartsExactly(rules, v, plan);
    RequestIdExactly(Get(v, "requestId"));
    SourceExactly(Get(v, "source"));
    var contentOnly := plan || Get(v, "deployment").Some?;
    DestinationsExactly(rules, Get(v, "destinations"), contentOnly);
    OptionsExactly(Get(v, "options"), contentOnly);
    if IsSource(Get(v, "source")) && ParseDestinations(rules, Get(v, "destinations"), contentOnly).Ok? {
      ApprovalExactly(rules, v, plan, contentOnly);
    }
  }

  /** Database and schema choices are deployed only with a package that both confirmations approve, and a deployment carries
      no destructive option. */
  lemma ChoicesAreApproved(rules: Rules, v: Json)
    requires ParseIntent(rules, v, false).Ok?
    ensures SomeBindings(Get(v, "destinations").value.items) ==>
              && Get(v, "deployment").Some? && Get(Get(v, "deployment").value, "packageCopy").Some?
              && var p := Get(Get(v, "deployment").value, "packageCopy").value;
                 Get(p, "version") == Some(Number(1)) && Get(p, "confirmDestinationAudience") == Some(Bool(true))
                 && Get(p, "confirmDependencies") == Some(Bool(true))
    ensures Get(v, "deployment").Some? && Get(v, "options").Some? ==>
              Get(v, "options").value.Object? && forall k :: k in Get(v, "options").value.fields ==> Get(v, "options").value.fields[k] == Bool(false)
  {
    ParsesExactly(rules, v, false);
    hide ParseIntent, Get, IsRequestId, IsSource, IsHashTable, AreSourceModels, AreWorkbooks, NamesOf, TargetNames, SomeStaging, SomeBindings;
  }
}

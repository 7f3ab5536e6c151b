/** Which parts of a request body are accepted, told by their fields: names, the source, and one destination. */
module BodyFields {
  import opened Options
  import opened Json
  import opened TextOrder
  import opened RequestIdentity
  import opened IntentValues
  import opened IntentBindings
  import opened IntentMappings
  import opened IntentDestination
  import opened IntentSource

  // ---------- names ----------

  /** A text that is not blank, nor too long without the space around it, nor holds a control character inside. */
  predicate IsName(v: Option<Json>, limit: nat) {
    v.Some? && v.value.Text?
    && var t := Trim(v.value.text);
       t != "" && |t| <= limit && forall i :: 0 <= i < |t| ==> t[i] as int >= 32 && t[i] as int != 127
  }

  /** The text without the space around it. */
  function NameOf(v: Option<Json>): string {
    if v.Some? && v.value.Text? then Trim(v.value.text) else ""
  }

  predicate IsNameOrAbsent(v: Option<Json>, limit: nat) {
    v.None? || IsName(v, limit)
  }

  function NameOrNone(v: Option<Json>): Option<string> {
    if v.None? then None else Some(NameOf(v))
  }

  lemma BoundedExactly(v: Option<Json>, limit: nat, code: Code)
    ensures Bounded(v, limit, code).Ok? <==> IsName(v, limit)
    ensures IsName(v, limit) ==> Bounded(v, limit, code) == Ok(NameOf(v))
  {
    hide Trim;
    if v.Some? && v.value.Text? {
      var t := Trim(v.value.text);
      assert HasControl(t) <==> !forall i :: 0 <= i < |t| ==> t[i] as int >= 32 && t[i] as int != 127;
    }
  }

  lemma OptionalExactly(v: Option<Json>, limit: nat)
    ensures OptionalText(v, limit).Ok? <==> IsNameOrAbsent(v, limit)
    ensures IsNameOrAbsent(v, limit) ==> OptionalText(v, limit) == Ok(NameOrNone(v))
  {
    BoundedExactly(v, limit, InvalidDestination);
    hide Bounded, IsName, NameOf;
  }

  // ---------- the source ----------

  predicate IsSource(v: Option<Json>) {
    && v.Some? && v.value.Object? && v.value.fields.Keys <= {"instanceId", "connectionId", "documentIds"}
    && IsName(Get(v.value, "instanceId"), 256) && IsName(Get(v.value, "connectionId"), 256)
    && var ids := Get(v.value, "documentIds");
       && ids.Some? && ids.value.List? && 1 <= |ids.value.items| <= 500
       && forall i :: 0 <= i < |ids.value.items| ==> IsName(Some(ids.value.items[i]), 256)
  }

  function NamesOf(items: seq<Json>): set<string> {
    set item | item in items :: NameOf(Some(item))
  }

  lemma {:induction false} IdsExactly(items: seq<Json>)
    ensures ParseIds(items).Ok? <==> forall i :: 0 <= i < |items| ==> IsName(Some(items[i]), 256)
    ensures ParseIds(items).Ok? ==> forall x :: x in ParseIds(items).value <==> x in NamesOf(items)
  {
    ParsedIds(items);
    hide ParseIds, Bounded, IsName, NameOf;
    forall i | 0 <= i < |items|
      ensures Identifier(Some(items[i]), InvalidSource).Ok? <==> IsName(Some(items[i]), 256)
      ensures IsName(Some(items[i]), 256) ==> Identifier(Some(items[i]), InvalidSource) == Ok(NameOf(Some(items[i])))
    {
      BoundedExactly(Some(items[i]), 256, InvalidSource);
    }
    if ParseIds(items).Ok? {
      var ids := ParseIds(items).value;
      forall x
        ensures x in ids <==> x in NamesOf(items)
      {
        if x in ids {
          var i :| 0 <= i < |ids| && ids[i] == x;
          assert items[i] in items;
        }
        if x in NamesOf(items) {
          var item :| item in items && NameOf(Some(item)) == x;
          var i :| 0 <= i < |items| && items[i] == item;
          assert ids[i] == x;
        }
      }
    }
  }

  lemma SourceExactly(v: Option<Json>)
    ensures ParseSource(v).Ok? <==> IsSource(v)
    ensures IsSource(v) ==>
              var s := ParseSource(v).value;
              && s.instanceId == NameOf(Get(v.value, "instanceId")) && s.connectionId == NameOf(Get(v.value, "connectionId"))
              && Increasing(s.documentIds)
              && forall x :: x in s.documentIds <==> x in NamesOf(Get(v.value, "documentIds").value.items)
  {
    hide Bounded, IsName, NameOf, ParseIds, Sorted, NamesOf, Increasing;
    if v.Some? && v.value.Object? {
      BoundedExactly(Get(v.value, "instanceId"), 256, InvalidSource);
      BoundedExactly(Get(v.value, "connectionId"), 256, InvalidSource);
      var list := Get(v.value, "documentIds");
      if list.Some? && list.value.List? {
        IdsExactly(list.value.items);
        if ParseIds(list.value.items).Ok? {
          SortedIsIncreasing(ParseIds(list.value.items).value);
        }
      }
    }
  }

  // ---------- mappings ----------

  /** What content-only requests ask of a mapping: these keys, two names and one of two actions. */
  predicate IsCheckedMapping(rules: Rules, sourceKey: string, targetKey: string, m: Json) {
    && m.Object? && m.fields.Keys <= {sourceKey, targetKey, "action"}
    && IsName(Get(m, sourceKey), 256) && IsName(Get(m, targetKey), 256)
    && "action" in m.fields
    && var a := m.fields["action"];
       if a.Text? then a.text == "map_existing" || a.text == "copy_source"
       else rules.show(a) == "map_existing" || rules.show(a) == "copy_source"
  }

  /** Mappings are absent, or a list of objects; in content-only requests at most 1,000 checked ones of different sources.
      Elsewhere what is no list counts as none. */
  predicate AreMappings(rules: Rules, sourceKey: string, targetKey: string, v: Option<Json>, contentOnly: bool) {
    v.Some? ==>
      && (contentOnly ==>
            && v.value.List? && |v.value.items| <= 1000
            && (forall i :: 0 <= i < |v.value.items| ==> IsCheckedMapping(rules, sourceKey, targetKey, v.value.items[i]))
            && (forall i, j :: 0 <= i < j < |v.value.items| ==>
                  NameOf(Get(v.value.items[i], sourceKey)) != NameOf(Get(v.value.items[j], sourceKey))))
      && (v.value.List? ==> forall i :: 0 <= i < |v.value.items| ==> v.value.items[i].Object?)
  }

  lemma MappingExactly(rules: Rules, keys: Keys, m: Json)
    requires Usable(keys)
    ensures CheckMapping(rules, keys, m).Ok? <==> IsCheckedMapping(rules, keys.source, keys.target, m)
    ensures CheckMapping(rules, keys, m).Ok? ==> CheckMapping(rules, keys, m) == Ok(NameOf(Get(m, keys.source)))
  {
    hide Bounded, IsName, NameOf;
    BoundedExactly(Get(m, keys.source), 256, InvalidDestination);
    BoundedExactly(Get(m, keys.target), 256, InvalidDestination);
  }

  predicate DifferentNames(items: seq<Json>, key: string) {
    forall i, j :: 0 <= i < j < |items| ==> NameOf(Get(items[i], key)) != NameOf(Get(items[j], key))
  }

  predicate AllChecked(rules: Rules, keys: Keys, items: seq<Json>) {
    forall i :: 0 <= i < |items| ==> IsCheckedMapping(rules, keys.source, keys.target, items[i])
  }

  lemma {:induction false} EachExactly(rules: Rules, keys: Keys, items: seq<Json>)
    requires Usable(keys)
    ensures CheckEach(rules, keys, items).Ok? <==> AllChecked(rules, keys, items) && DifferentNames(items, keys.source)
    ensures CheckEach(rules, keys, items).Ok? ==>
              forall x :: x in CheckEach(rules, keys, items).value <==> exists i :: 0 <= i < |items| && NameOf(Get(items[i], keys.source)) == x
  {
    hide CheckMapping, IsCheckedMapping, NameOf, Get;
    if items != [] {
      var n := |items| - 1;
      var front := items[..n];
      EachExactly(rules, keys, front);
      MappingExactly(rules, keys, items[n]);
      assert forall i :: 0 <= i < n ==> front[i] == items[i];
      assert AllChecked(rules, keys, items) <==> AllChecked(rules, keys, front) && IsCheckedMapping(rules, keys.source, keys.target, items[n]);
    }
  }

  lemma MappingsExactly(rules: Rules, keys: Keys, v: Option<Json>, contentOnly: bool)
    requires Usable(keys)
    ensures (contentOnly ==> CheckMappings(rules, keys, v).Ok?) && ParseMappings(rules, keys, v).Ok?
            <==> AreMappings(rules, keys.source, keys.target, v, contentOnly)
  {
    hide CheckEach, IntentMappings.ParseEach, IsCheckedMapping, NameOf, Get;
    if v.Some? && v.value.List? {
      EachExactly(rules, keys, v.value.items);
    }
  }

  // ---------- bindings ----------

  /** Names of a catalog, a database and a schema; the first two do not differ. */
  predicate IsNamespaceObject(rules: Rules, v: Json) {
    && v.Object? && v.fields.Keys <= {"catalog", "database", "schema"}
    && (forall k :: k in v.fields ==> v.fields[k].Text? && rules.namespaceName(v.fields[k].text))
    && ("catalog" in v.fields && "database" in v.fields ==> v.fields["catalog"].text == v.fields["database"].text)
  }

  function TextOf(v: Option<Json>): string {
    if v.Some? && v.value.Text? then v.value.text else ""
  }

  predicate IsBindingObject(rules: Rules, v: Json) {
    && v.Object? && v.fields.Keys == {"sourceFileName", "targetFileName", "source", "destination"}
    && v.fields["sourceFileName"].Text? && rules.viewPath(v.fields["sourceFileName"].text)
    && v.fields["targetFileName"].Text? && rules.viewPath(v.fields["targetFileName"].text)
    && IsNamespaceObject(rules, v.fields["source"]) && IsNamespaceObject(rules, v.fields["destination"])
  }

  /** Bindings are absent, or in a content-only request at most 500 of different source and target files. */
  predicate AreBindings(rules: Rules, v: Option<Json>, contentOnly: bool) {
    v.Some? ==>
      && contentOnly && v.value.List? && |v.value.items| <= 500
      && (forall i :: 0 <= i < |v.value.items| ==> IsBindingObject(rules, v.value.items[i]))
      && forall i, j :: 0 <= i < j < |v.value.items| ==>
           && TextOf(Get(v.value.items[i], "sourceFileName")) != TextOf(Get(v.value.items[j], "sourceFileName"))
           && TextOf(Get(v.value.items[i], "targetFileName")) != TextOf(Get(v.value.items[j], "targetFileName"))
  }

  lemma BindingExactly(rules: Rules, v: Json)
    ensures IsBinding(rules, v) <==> IsBindingObject(rules, v)
    ensures IsBinding(rules, v) ==> ParseBinding(rules, v).sourceFile == TextOf(Get(v, "sourceFileName"))
                                    && ParseBinding(rules, v).targetFile == TextOf(Get(v, "targetFileName"))
  {
    if v.Object? && v.fields.Keys == {"sourceFileName", "targetFileName", "source", "destination"} {
      NamespaceExactly(rules, v.fields["source"]);
      NamespaceExactly(rules, v.fields["destination"]);
      hide IsNamespace, IsNamespaceObject, Namespace;
      assert "source" in v.fields.Keys && "destination" in v.fields.Keys;
      assert "sourceFileName" in v.fields.Keys && "targetFileName" in v.fields.Keys;
    }
  }

  lemma NamespaceExactly(rules: Rules, v: Json)
    ensures IsNamespace(rules, Some(v)) <==> IsNamespaceObject(rules, v)
  {}

  predicate AllBindingObjects(rules: Rules, items: seq<Json>) {
    forall i :: 0 <= i < |items| ==> IsBindingObject(rules, items[i])
  }

  predicate DifferentFiles(items: seq<Json>) {
    forall i, j :: 0 <= i < j < |items| ==>
      && TextOf(Get(items[i], "sourceFileName")) != TextOf(Get(items[j], "sourceFileName"))
      && TextOf(Get(items[i], "targetFileName")) != TextOf(Get(items[j], "targetFileName"))
  }

  lemma BindingListExactly(rules: Rules, items: seq<Json>)
    ensures IsBindingList(rules, List(items)) <==> |items| <= 500 && AllBindingObjects(rules, items) && DifferentFiles(items)
  {
    hide IsBinding, IsBindingObject, ParseBinding, TextOf, Get;
    forall i | 0 <= i < |items|
      ensures IsBinding(rules, items[i]) <==> IsBindingObject(rules, items[i])
      ensures IsBinding(rules, items[i]) ==> ParseBinding(rules, items[i]).sourceFile == TextOf(Get(items[i], "sourceFileName"))
                                             && ParseBinding(rules, items[i]).targetFile == TextOf(Get(items[i], "targetFileName"))
    {
      BindingExactly(rules, items[i]);
    }
  }

  lemma ArrangedEmpty(bs: seq<Binding>)
    ensures Arrange(ByKey(SourceFiles(bs), bs), SourceFiles(bs)) == [] <==> bs == []
  {
    var rs := ArrangedBindings(bs);
    hide Arrange, ByKey;
    if bs != [] {
      SortedIsIncreasing(SourceFiles(bs));
      assert SourceFiles(bs)[0] in Sorted(SourceFiles(bs));
    }
  }

  /** Bindings that are accepted are there when they are in the body, and none are there when the list is empty. */
  lemma BindingsExactly(rules: Rules, v: Option<Json>, contentOnly: bool)
    ensures ParseBindings(rules, v, contentOnly).Ok? <==> AreBindings(rules, v, contentOnly)
    ensures AreBindings(rules, v, contentOnly) ==>
              var bs := ParseBindings(rules, v, contentOnly).value;
              (bs.Some? <==> v.Some?) && (bs.Some? ==> (bs.value == [] <==> v.value.items == []))
  {
    hide IsBindingObject, ParseBinding, Arrange, ByKey;
    if v.Some? && v.value.List? {
      BindingListExactly(rules, v.value.items);
      hide IsBinding;
      assert contentOnly ==> (IsBindingList(rules, v.value) <==> AreBindings(rules, v, contentOnly));
      if IsBindingList(rules, v.value) {
        hide AreBindings;
        ArrangedEmpty(IntentBindings.ParseEach(rules, v.value.items));
      }
    }
  }

  // ---------- a destination ----------

  /** The name of another folder than that of delivery. */
  predicate IsStaging(v: Option<Json>, folderId: Option<Json>, contentOnly: bool) {
    v.Some? ==>
      && contentOnly && v.value.Object? && v.value.fields.Keys <= {"stagingFolderId"}
      && IsName(Get(v.value, "stagingFolderId"), 256)
      && (folderId.Some? ==> NameOf(Get(v.value, "stagingFolderId")) != NameOf(folderId))
  }

  predicate IsDestination(rules: Rules, item: Json, contentOnly: bool) {
    && item.Object?
    && item.fields.Keys <= {"targetId", "instanceId", "connectionId", "modelId", "folderId", "folderPath", "topicMappings",
                            "queryViewMappings", "workbookCopy", "bindingMappings"}
    && IsName(Get(item, "targetId"), 256) && IsName(Get(item, "instanceId"), 256)
    && IsName(Get(item, "connectionId"), 256) && IsName(Get(item, "modelId"), 256)
    && IsNameOrAbsent(Get(item, "folderId"), 256) && IsNameOrAbsent(Get(item, "folderPath"), 1024)
    && AreBindings(rules, Get(item, "bindingMappings"), contentOnly)
    && IsStaging(Get(item, "workbookCopy"), Get(item, "folderId"), contentOnly)
    && AreMappings(rules, "sourceTopicName", "targetTopicName", Get(item, "topicMappings"), contentOnly)
    && AreMappings(rules, "sourceQueryViewName", "targetQueryViewName", Get(item, "queryViewMappings"), contentOnly)
  }

  /** The destination has the names of its fields. */
  predicate SaysDestination(item: Json, d: Destination) {
    && d.target == Target(NameOf(Get(item, "targetId")), NameOf(Get(item, "instanceId")), NameOf(Get(item, "connectionId")),
                          NameOf(Get(item, "modelId")))
    && d.placement.folderId == NameOrNone(Get(item, "folderId")) && d.placement.folderPath == NameOrNone(Get(item, "folderPath"))
    && (d.placement.stagingFolderId.Some? <==> Get(item, "workbookCopy").Some?)
    && (d.placement.stagingFolderId.Some? ==>
          d.placement.stagingFolderId.value == NameOf(Get(Get(item, "workbookCopy").value, "stagingFolderId")))
    && (HasBindings(item) <==> d.placement.bindings.Some? && d.placement.bindings.value != [])
  }

  /** Some binding is listed. */
  predicate HasBindings(item: Json) {
    var list := Get(item, "bindingMappings");
    list.Some? && list.value.List? && list.value.items != []
  }

  lemma TargetExactly(item: Json)
    ensures ParseTarget(item).Ok? <==>
            && IsName(Get(item, "targetId"), 256) && IsName(Get(item, "instanceId"), 256)
            && IsName(Get(item, "connectionId"), 256) && IsName(Get(item, "modelId"), 256)
    ensures ParseTarget(item).Ok? ==>
              ParseTarget(item).value == Target(NameOf(Get(item, "targetId")), NameOf(Get(item, "instanceId")),
                                                NameOf(Get(item, "connectionId")), NameOf(Get(item, "modelId")))
  {
    hide Bounded, IsName, NameOf, Get;
    BoundedExactly(Get(item, "targetId"), 256, InvalidDestination);
    BoundedExactly(Get(item, "instanceId"), 256, InvalidDestination);
    BoundedExactly(Get(item, "connectionId"), 256, InvalidDestination);
    BoundedExactly(Get(item, "modelId"), 256, InvalidDestination);
  }

  lemma StagingExactly(v: Option<Json>, folderId: Option<Json>, contentOnly: bool)
    ensures ParseWorkbook(v, NameOrNone(folderId), contentOnly).Ok? <==> IsStaging(v, folderId, contentOnly)
    ensures IsStaging(v, folderId, contentOnly) ==>
              ParseWorkbook(v, NameOrNone(folderId), contentOnly)
              == Ok(if v.Some? then Some(NameOf(Get(v.value, "stagingFolderId"))) else None)
  {
    hide Bounded, IsName, NameOf, Get;
    if v.Some? {
      BoundedExactly(Get(v.value, "stagingFolderId"), 256, InvalidDestination);
    }
  }

  lemma PlacementExactly(rules: Rules, item: Json, contentOnly: bool)
    ensures ParsePlacement(rules, item, contentOnly).Ok? <==>
            && IsNameOrAbsent(Get(item, "folderId"), 256) && IsNameOrAbsent(Get(item, "folderPath"), 1024)
            && AreBindings(rules, Get(item, "bindingMappings"), contentOnly)
            && IsStaging(Get(item, "workbookCopy"), Get(item, "folderId"), contentOnly)
    ensures ParsePlacement(rules, item, contentOnly).Ok? ==>
              var p := ParsePlacement(rules, item, contentOnly).value;
              && p.folderId == NameOrNone(Get(item, "folderId")) && p.folderPath == NameOrNone(Get(item, "folderPath"))
              && p.stagingFolderId == (if Get(item, "workbookCopy").Some? then Some(NameOf(Get(Get(item, "workbookCopy").value, "stagingFolderId")))
                                       else None)
              && Ok(p.bindings) == ParseBindings(rules, Get(item, "bindingMappings"), contentOnly)
  {
    hide OptionalText, IsNameOrAbsent, NameOrNone, NameOf, Get, ParseBindings, AreBindings, ParseWorkbook, IsStaging;
    OptionalExactly(Get(item, "folderId"), 256);
    OptionalExactly(Get(item, "folderPath"), 1024);
    BindingsExactly(rules, Get(item, "bindingMappings"), contentOnly);
    StagingExactly(Get(item, "workbookCopy"), Get(item, "folderId"), contentOnly);
  }

  lemma ReferencesExactly(rules: Rules, item: Json, contentOnly: bool)
    ensures ParseReferences(rules, item, contentOnly).Ok? <==>
            && AreMappings(rules, "sourceTopicName", "targetTopicName", Get(item, "topicMappings"), contentOnly)
            && AreMappings(rules, "sourceQueryViewName", "targetQueryViewName", Get(item, "queryViewMappings"), contentOnly)
  {
    hide CheckMappings, ParseMappings, AreMappings, Get;
    MappingsExactly(rules, TOPICS, Get(item, "topicMappings"), contentOnly);
    MappingsExactly(rules, QUERY_VIEWS, Get(item, "queryViewMappings"), contentOnly);
  }

  /** A destination item is accepted exactly when its fields are as they have to be, and has the names they say. */
  lemma DestinationExactly(rules: Rules, item: Json, contentOnly: bool)
    ensures ParseDestination(rules, item, contentOnly).Ok? <==> IsDestination(rules, item, contentOnly)
    ensures IsDestination(rules, item, contentOnly) ==> SaysDestination(item, ParseDestination(rules, item, contentOnly).value)
  {
    hide ParseTarget, ParsePlacement, ParseReferences, IsName, IsNameOrAbsent, AreBindings, AreMappings, IsStaging, NameOf, Get;
    TargetExactly(item);
    PlacementExactly(rules, item, contentOnly);
    ReferencesExactly(rules, item, contentOnly);
    BindingsExactly(rules, Get(item, "bindingMappings"), contentOnly);
    BindingsAreList(rules, Get(item, "bindingMappings"), contentOnly);
  }

  lemma BindingsAreList(rules: Rules, v: Option<Json>, contentOnly: bool)
    ensures AreBindings(rules, v, contentOnly) && v.Some? ==> v.value.List?
  {}
}

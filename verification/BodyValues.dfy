/** What a parsed request says: every part of it, told by the fields of the body. */
module BodyValues {
  import opened Options
  import opened Json
  import opened TextOrder
  import opened RequestIdentity
  import opened IntentValues
  import opened IntentBindings
  import opened IntentMappings
  import opened IntentDestination
  import opened IntentSource
  import opened IntentDestinations
  import opened IntentEvidence
  import opened Intent
  import opened IntentSettling
  import opened BodyFields
  import opened BodyEvidence
  import opened BodyParses

  // ---------- mappings ----------

  /** A value that reads as if there were none. */
  predicate ReadsAsNone(v: Option<Json>) {
    v.None? || v.value == Null || v.value == Bool(false) || v.value == Number(0) || v.value == Text("")
  }

  /** The text a value is read as. */
  predicate ReadsAs(rules: Rules, v: Option<Json>, text: string) {
    if ReadsAsNone(v) then text == ""
    else if v.value.Text? then v.value == Text(text)
    else text == rules.show(v.value)
  }

  /** A mapping has the names of its item, and the source name for a target name that there is not; it maps to something
      that exists only if the item says so. */
  predicate SaysMapping(rules: Rules, sourceKey: string, targetKey: string, item: Json, m: Mapping) {
    && ReadsAs(rules, Get(item, sourceKey), m.source)
    && (if ReadsAsNone(Get(item, targetKey)) then m.target == m.source else ReadsAs(rules, Get(item, targetKey), m.target))
    && (m.action == MapExisting <==> Get(item, "action") == Some(Text("map_existing")))
  }

  /** One mapping an item, in their order. What is no list, or empty, says none. */
  predicate SaysMappings(rules: Rules, sourceKey: string, targetKey: string, v: Option<Json>, ms: Option<seq<Mapping>>) {
    if v.None? || !v.value.List? || v.value.items == [] then ms.None?
    else
      && ms.Some? && |ms.value| == |v.value.items|
      && forall i :: 0 <= i < |ms.value| ==> SaysMapping(rules, sourceKey, targetKey, v.value.items[i], ms.value[i])
  }

  lemma MappingSays(rules: Rules, keys: Keys, item: Json)
    ensures SaysMapping(rules, keys.source, keys.target, item, ParseMapping(rules, keys, item))
  {}

  lemma MappingsSay(rules: Rules, keys: Keys, v: Option<Json>)
    requires ParseMappings(rules, keys, v).Ok?
    ensures SaysMappings(rules, keys.source, keys.target, v, ParseMappings(rules, keys, v).value)
  {
    hide SaysMapping, ParseMapping;
    if v.Some? && v.value.List? && v.value.items != [] {
      forall i | 0 <= i < |v.value.items|
        ensures SaysMapping(rules, keys.source, keys.target, v.value.items[i], ParseMapping(rules, keys, v.value.items[i]))
      {
        MappingSays(rules, keys, v.value.items[i]);
      }
    }
  }

  // ---------- bindings ----------

  predicate SaysNamespace(v: Option<Json>, names: map<string, string>) {
    v.Some? && v.value.Object? && v.value.fields.Keys == names.Keys && forall k :: k in names ==> v.value.fields[k] == Text(names[k])
  }

  predicate SaysBinding(item: Json, b: Binding) {
    && Get(item, "sourceFileName") == Some(Text(b.sourceFile)) && Get(item, "targetFileName") == Some(Text(b.targetFile))
    && SaysNamespace(Get(item, "source"), b.source) && SaysNamespace(Get(item, "destination"), b.destination)
  }

  predicate SaidByItem(items: seq<Json>, b: Binding) {
    exists item :: item in items && SaysBinding(item, b)
  }

  predicate SaysOneOf(item: Json, bs: seq<Binding>) {
    exists b :: b in bs && SaysBinding(item, b)
  }

  /** The bindings are those of the items, in the order of their source files. */
  predicate SaysBindings(v: Option<Json>, bs: Option<seq<Binding>>) {
    && (bs.Some? <==> v.Some?)
    && (bs.Some? ==>
          && v.value.List? && Increasing(SourceFiles(bs.value))
          && (forall b :: b in bs.value ==> SaidByItem(v.value.items, b))
          && (forall item :: item in v.value.items ==> SaysOneOf(item, bs.value)))
  }

  lemma BindingSays(rules: Rules, item: Json)
    requires IsBinding(rules, item)
    ensures SaysBinding(item, ParseBinding(rules, item))
  {
    assert "source" in item.fields.Keys && "destination" in item.fields.Keys;
    assert "sourceFileName" in item.fields.Keys && "targetFileName" in item.fields.Keys;
    NamespaceSays(rules, Get(item, "source"));
    NamespaceSays(rules, Get(item, "destination"));
    hide IsNamespace, Namespace, SaysNamespace;
  }

  lemma NamespaceSays(rules: Rules, v: Option<Json>)
    requires IsNamespace(rules, v)
    ensures SaysNamespace(v, Namespace(rules, v))
  {}

  /** Bindings of different source files are all kept when they are put in order. */
  lemma ArrangedHoldsAll(bs: seq<Binding>, j: nat)
    requires j < |bs| && forall i :: 0 <= i < |bs| && bs[i].sourceFile == bs[j].sourceFile ==> i == j
    ensures bs[j] in Arrange(ByKey(SourceFiles(bs), bs), SourceFiles(bs))
  {
    var keys := SourceFiles(bs);
    var rs := Arrange(ByKey(keys, bs), keys);
    SortedIsIncreasing(keys);
    var a := ByKeyIsAValue(keys, bs, keys[j]);
    hide Sorted, ByKey, Arrange, Increasing, SourceFiles;
    assert a == j;
    assert keys[j] in Sorted(keys);
    var i :| 0 <= i < |Sorted(keys)| && Sorted(keys)[i] == keys[j];
    assert rs[i] == bs[j];
  }

  lemma ParsedBinding(rules: Rules, items: seq<Json>, b: Binding)
    requires (forall i :: 0 <= i < |items| ==> IsBinding(rules, items[i])) && b in IntentBindings.ParseEach(rules, items)
    ensures SaidByItem(items, b)
  {
    hide IsBinding, ParseBinding, SaysBinding;
    var bs := IntentBindings.ParseEach(rules, items);
    var i :| 0 <= i < |bs| && bs[i] == b;
    BindingSays(rules, items[i]);
    assert items[i] in items;
  }

  lemma BindingsSay(rules: Rules, v: Option<Json>, contentOnly: bool)
    requires ParseBindings(rules, v, contentOnly).Ok?
    ensures SaysBindings(v, ParseBindings(rules, v, contentOnly).value)
  {
    hide IsBinding, ParseBinding, SaysBinding, Increasing, Arrange, ByKey, SaidByItem, SaysOneOf;
    if v.Some? {
      var items := v.value.items;
      var bs := IntentBindings.ParseEach(rules, items);
      var rs := ArrangedBindings(bs);
      forall b | b in rs
        ensures SaidByItem(items, b)
      {
        ParsedBinding(rules, items, b);
      }
      forall item | item in items
        ensures SaysOneOf(item, rs)
      {
        var i :| 0 <= i < |items| && items[i] == item;
        BindingSays(rules, item);
        ArrangedHoldsAll(bs, i);
        OneOf(item, rs, bs[i]);
      }
    }
  }

  lemma OneOf(item: Json, bs: seq<Binding>, b: Binding)
    requires b in bs && SaysBinding(item, b)
    ensures SaysOneOf(item, bs)
  {}

  // ---------- destinations ----------

  /** All that a destination says. */
  predicate SaysAll(rules: Rules, item: Json, d: Destination) {
    && SaysDestination(item, d)
    && SaysBindings(Get(item, "bindingMappings"), d.placement.bindings)
    && SaysMappings(rules, "sourceTopicName", "targetTopicName", Get(item, "topicMappings"), d.references.topics)
    && SaysMappings(rules, "sourceQueryViewName", "targetQueryViewName", Get(item, "queryViewMappings"), d.references.queryViews)
  }

  lemma DestinationSays(rules: Rules, item: Json, contentOnly: bool, d: Destination)
    requires Parses(rules, contentOnly, item, d)
    ensures SaysAll(rules, item, d)
  {
    hide IsDestination, SaysDestination, SaysBindings, SaysMappings, ParseBindings, ParseMappings, ParseTarget, CheckMappings, OptionalText,
         IntentDestination.ParseWorkbook, OnlyKeys, Get;
    DestinationExactly(rules, item, contentOnly);
    BindingsSay(rules, Get(item, "bindingMappings"), contentOnly);
    MappingsSay(rules, TOPICS, Get(item, "topicMappings"));
    MappingsSay(rules, QUERY_VIEWS, Get(item, "queryViewMappings"));
  }

  /** The destinations are those of the items, one a target, in the order of their targets. */
  predicate SaysDestinations(rules: Rules, v: Option<Json>, ds: seq<Destination>) {
    && v.Some? && v.value.List?
    && Increasing(TargetIds(ds))
    && (forall d :: d in ds ==> exists item :: item in v.value.items && SaysAll(rules, item, d))
    && (forall item :: item in v.value.items ==> exists d :: d in ds && SaysAll(rules, item, d))
  }

  lemma DestinationsSay(rules: Rules, v: Option<Json>, contentOnly: bool)
    requires ParseDestinations(rules, v, contentOnly).Ok?
    ensures SaysDestinations(rules, v, ParseDestinations(rules, v, contentOnly).value)
  {
    hide ParseDestinations, SaysAll, Increasing, ApartScopes, IsParsed, Parses;
    IsList(rules, v, contentOnly);
    ParsedDestinations(rules, v, contentOnly);
    var ds := ParseDestinations(rules, v, contentOnly).value;
    forall d | d in ds
      ensures exists item :: item in v.value.items && SaysAll(rules, item, d)
    {
      var k :| 0 <= k < |ds| && ds[k] == d;
      var item := ListedIsItem(rules, v, contentOnly, k);
      DestinationSays(rules, item, contentOnly, d);
    }
    forall item | item in v.value.items
      ensures exists d :: d in ds && SaysAll(rules, item, d)
    {
      var k := ItemIsListed(rules, v, contentOnly, item);
      DestinationSays(rules, item, contentOnly, ds[k]);
      assert ds[k] in ds;
    }
  }

  // ---------- evidence ----------

  predicate SaysHashes(v: Option<Json>, hashes: Hashes) {
    v.Some? && v.value.Object? && v.value.fields.Keys == hashes.Keys && forall k :: k in hashes ==> v.value.fields[k] == Text(hashes[k])
  }

  predicate SaysWorkbook(v: Json, w: Workbook) {
    && w.workbookModelId == NameOf(Get(v, "sourceWorkbookModelId")) && w.sharedModelId == NameOf(Get(v, "sourceSharedModelId"))
    && SaysHashes(Get(v, "authoredFileHashes"), w.fileHashes) && Get(v, "authoredModelHash") == Some(Text(w.modelHash))
  }

  predicate SaysWorkbooks(v: Option<Json>, workbooks: Option<map<string, Workbook>>) {
    if v.None? then workbooks.None?
    else
      && workbooks.Some? && v.value.Object? && v.value.fields.Keys == workbooks.value.Keys
      && forall k :: k in workbooks.value ==> SaysWorkbook(v.value.fields[k], workbooks.value[k])
  }

  predicate SaysEvidence(v: Json, d: Deployment) {
    && d.planId == NameOf(Get(v, "planId"))
    && SaysHashes(Get(v, "sourceHashes"), d.sourceHashes) && SaysHashes(Get(v, "modelHashes"), d.modelHashes)
    && (if Get(v, "sourceModelHashes").None? then d.sourceModelHashes.None?
        else d.sourceModelHashes.Some? && SaysHashes(Get(v, "sourceModelHashes"), d.sourceModelHashes.value))
    && SaysWorkbooks(Get(v, "workbookCopies"), d.workbooks)
    && (if Get(v, "packageCopy").None? then d.fingerprints.None?
        else d.fingerprints.Some? && SaysHashes(Get(Get(v, "packageCopy").value, "targetFingerprints"), d.fingerprints.value))
  }

  lemma HashesSay(rules: Rules, v: Option<Json>, ids: set<string>)
    requires ParseHashes(rules, v, ids).Ok?
    ensures SaysHashes(v, ParseHashes(rules, v, ids).value)
  {
    HashesCoverExactly(rules, v, ids);
    HashesExactly(rules, v, ids);
  }

  lemma WorkbookSays(rules: Rules, documents: set<string>, id: string, v: Json)
    requires IntentEvidence.ParseWorkbook(rules, documents, id, v).Ok?
    ensures SaysWorkbook(v, IntentEvidence.ParseWorkbook(rules, documents, id, v).value)
  {
    hide Bounded, IsName, NameOf, ParseHashes, SaysHashes, OnlyKeys, Get;
    BoundedExactly(Get(v, "sourceWorkbookModelId"), 256, InvalidDeployment);
    BoundedExactly(Get(v, "sourceSharedModelId"), 256, InvalidDeployment);
    var files := Get(v, "authoredFileHashes");
    HashesSay(rules, files, files.value.fields.Keys);
  }

  lemma WorkbooksSay(rules: Rules, documents: set<string>, v: Option<Json>)
    requires ParseWorkbooks(rules, documents, v).Ok?
    ensures SaysWorkbooks(v, ParseWorkbooks(rules, documents, v).value)
  {
    hide ParseTable, IntentEvidence.ParseWorkbook, SaysWorkbook;
    if v.Some? {
      var fields, parse := v.value.fields, WorkbookParser(rules, documents);
      TableEntries(fields, parse);
      forall k | k in fields
        ensures SaysWorkbook(fields[k], ParseTable(fields, parse).value[k])
      {
        assert parse(k, fields[k]) == IntentEvidence.ParseWorkbook(rules, documents, k, fields[k]);
        WorkbookSays(rules, documents, k, fields[k]);
      }
    }
  }

  lemma SourceModelsSay(rules: Rules, v: Option<Json>)
    requires ParseSourceModels(rules, v).Ok?
    ensures var hashes := ParseSourceModels(rules, v).value;
            if v.None? then hashes.None? else hashes.Some? && SaysHashes(v, hashes.value)
  {
    hide ParseTable, ParseHashes, SaysHashes;
    if v.Some? {
      HashesSay(rules, v, v.value.fields.Keys);
    }
  }

  lemma PackageSays(rules: Rules, targets: set<string>, v: Option<Json>)
    requires ParsePackage(rules, targets, v).Ok?
    ensures var hashes := ParsePackage(rules, targets, v).value;
            if v.None? then hashes.None? else hashes.Some? && SaysHashes(Get(v.value, "targetFingerprints"), hashes.value)
  {
    hide ParseHashes, SaysHashes, OnlyKeys, Get;
    if v.Some? {
      HashesSay(rules, Get(v.value, "targetFingerprints"), targets);
    }
  }

  lemma EvidenceSays(rules: Rules, scope: Scope, v: Json)
    requires ParseDeployment(rules, scope, v).Ok?
    ensures SaysEvidence(v, ParseDeployment(rules, scope, v).value)
  {
    hide Bounded, IsName, NameOf, ParseHashes, ParseSourceModels, ParseWorkbooks, ParsePackage, SaysHashes, SaysWorkbooks, OnlyKeys, Get;
    BoundedExactly(Get(v, "planId"), 256, InvalidDeployment);
    HashesSay(rules, Get(v, "sourceHashes"), scope.documents);
    HashesSay(rules, Get(v, "modelHashes"), scope.targets);
    SourceModelsSay(rules, Get(v, "sourceModelHashes"));
    WorkbooksSay(rules, scope.documents, Get(v, "workbookCopies"));
    PackageSays(rules, scope.targets, Get(v, "packageCopy"));
  }

  // ---------- the whole request ----------

  ghost predicate SaysSource(v: Option<Json>, s: Source) {
    && v.Some?
    && s.instanceId == NameOf(Get(v.value, "instanceId")) && s.connectionId == NameOf(Get(v.value, "connectionId"))
    && Get(v.value, "documentIds").Some? && Get(v.value, "documentIds").value.List?
    && Increasing(s.documentIds)
    && forall x :: x in s.documentIds <==> x in NamesOf(Get(v.value, "documentIds").value.items)
  }

  /** Options are read from an object, and only where they may do something: each is on just when it is literally true. */
  predicate SaysOptions(v: Option<Json>, contentOnly: bool, options: Option<CopyOptions>) {
    if contentOnly || v.None? || !v.value.Object? then options.None?
    else
      && options.Some?
      && (options.value.emptyFirst <==> Get(v.value, "emptyFirst") == Some(Bool(true)))
      && (options.value.deleteSourceOnSuccess <==> Get(v.value, "deleteSourceOnSuccess") == Some(Bool(true)))
      && (options.value.refreshSchemaOnComplete <==> Get(v.value, "refreshSchemaOnComplete") == Some(Bool(true)))
  }

  ghost predicate SaysRequest(rules: Rules, v: Json, plan: bool, i: Intent) {
    && i.requestId == Lower(NameOf(Get(v, "requestId")))
    && SaysSource(Get(v, "source"), i.source)
    && SaysDestinations(rules, Get(v, "destinations"), i.destinations)
    && (if Get(v, "deployment").None? then i.deployment.None?
        else i.deployment.Some? && SaysEvidence(Get(v, "deployment").value, i.deployment.value))
    && SaysOptions(Get(v, "options"), plan || Get(v, "deployment").Some?, i.options)
  }

  lemma SourceSays(v: Option<Json>)
    requires ParseSource(v).Ok?
    ensures SaysSource(v, ParseSource(v).value)
  {
    SourceExactly(v);
    hide ParseSource, Increasing, NameOf, NamesOf, IsName;
  }

  lemma PartsSay(rules: Rules, v: Json, plan: bool)
    requires ParseIntent(rules, v, plan).Ok?
    ensures var i, contentOnly := ParseIntent(rules, v, plan).value, plan || Get(v, "deployment").Some?;
            && ParseRequestId(Get(v, "requestId")) == Ok(i.requestId)
            && ParseSource(Get(v, "source")) == Ok(i.source)
            && ParseDestinations(rules, Get(v, "destinations"), contentOnly) == Ok(i.destinations)
            && ParseEvidence(rules, i.source, i.destinations, Get(v, "deployment")) == Ok(i.deployment)
            && SaysOptions(Get(v, "options"), contentOnly, i.options)
  {
    hide OnlyKeys, ParseRequestId, ParseSource, ParseDestinations, ParseEvidence, BindingsApproved, OptionsAllowed;
  }

  /** A parsed request says what the fields of its body say, and nothing else. */
  lemma RequestSays(rules: Rules, v: Json, plan: bool)
    requires ParseIntent(rules, v, plan).Ok?
    ensures SaysRequest(rules, v, plan, ParseIntent(rules, v, plan).value)
  {
    hide ParseIntent, Get, ParseRequestId, ParseSource, ParseDestinations, ParseDeployment, SaysSource, SaysDestinations, SaysEvidence, SaysOptions,
         NameOf, IsRequestId;
    PartsSay(rules, v, plan);
    RequestIdExactly(Get(v, "requestId"));
    SourceSays(Get(v, "source"));
    var contentOnly := plan || Get(v, "deployment").Some?;
    DestinationsSay(rules, Get(v, "destinations"), contentOnly);
    var i := ParseIntent(rules, v, plan).value;
    if Get(v, "deployment").Some? {
      EvidenceSays(rules, ScopeFor(i.source, i.destinations), Get(v, "deployment").value);
    }
  }
}

/** One destination of a safe-copy request: its parser, and the JSON it is written back as. */
module IntentDestination {
  import opened Options
  import opened Json
  import opened IntentValues
  import opened IntentBindings
  import opened IntentMappings

  datatype Target = Target(targetId: string, instanceId: string, connectionId: string, modelId: string)
  datatype Placement = Placement(folderId: Option<string>, folderPath: Option<string>, bindings: Option<seq<Binding>>, stagingFolderId: Option<string>)
  datatype References = References(topics: Option<seq<Mapping>>, queryViews: Option<seq<Mapping>>)
  datatype Destination = Destination(target: Target, placement: Placement, references: References)

  const TARGET_ID: string := "targetId"
  const INSTANCE_ID: string := "instanceId"
  const CONNECTION_ID: string := "connectionId"
  const MODEL_ID: string := "modelId"
  const FOLDER_ID: string := "folderId"
  const FOLDER_PATH: string := "folderPath"
  const TOPIC_MAPPINGS: string := "topicMappings"
  const QUERY_VIEW_MAPPINGS: string := "queryViewMappings"
  const WORKBOOK_COPY: string := "workbookCopy"
  const BINDING_MAPPINGS: string := "bindingMappings"

  const DESTINATION_KEYS: set<string> :=
    {TARGET_ID, INSTANCE_ID, CONNECTION_ID, MODEL_ID, FOLDER_ID, FOLDER_PATH, TOPIC_MAPPINGS, QUERY_VIEW_MAPPINGS, WORKBOOK_COPY, BINDING_MAPPINGS}

  /** Staging happens in another folder than delivery. */
  function ParseWorkbook(v: Option<Json>, folderId: Option<string>, contentOnly: bool): Result<Option<string>> {
    if v.None? then Ok(None)
    else
      var _ :- Need(contentOnly && v.value.Object?, InvalidDestination);
      var _ :- Need(OnlyKeys(v.value, {"stagingFolderId"}), UnknownField);
      var staging :- Identifier(Get(v.value, "stagingFolderId"), InvalidDestination);
      var _ :- Need(Some(staging) != folderId, InvalidDestination);
      Ok(Some(staging))
  }

  function ParseTarget(v: Json): Result<Target> {
    var targetId :- Identifier(Get(v, TARGET_ID), InvalidDestination);
    var instanceId :- Identifier(Get(v, INSTANCE_ID), InvalidDestination);
    var connectionId :- Identifier(Get(v, CONNECTION_ID), InvalidDestination);
    var modelId :- Identifier(Get(v, MODEL_ID), InvalidDestination);
    Ok(Target(targetId, instanceId, connectionId, modelId))
  }

  function ParsePlacement(rules: Rules, v: Json, contentOnly: bool): Result<Placement> {
    var folderId :- OptionalText(Get(v, FOLDER_ID), MAX_IDENTIFIER_LENGTH);
    var folderPath :- OptionalText(Get(v, FOLDER_PATH), MAX_FOLDER_PATH_LENGTH);
    var bindings :- ParseBindings(rules, Get(v, BINDING_MAPPINGS), contentOnly);
    var staging :- ParseWorkbook(Get(v, WORKBOOK_COPY), folderId, contentOnly);
    Ok(Placement(folderId, folderPath, bindings, staging))
  }

  function ParseReferences(rules: Rules, v: Json, contentOnly: bool): Result<References> {
    var _ :- if contentOnly then CheckMappings(rules, TOPICS, Get(v, TOPIC_MAPPINGS)) else Ok(true);
    var _ :- if contentOnly then CheckMappings(rules, QUERY_VIEWS, Get(v, QUERY_VIEW_MAPPINGS)) else Ok(true);
    var topics :- ParseMappings(rules, TOPICS, Get(v, TOPIC_MAPPINGS));
    var queryViews :- ParseMappings(rules, QUERY_VIEWS, Get(v, QUERY_VIEW_MAPPINGS));
    Ok(References(topics, queryViews))
  }

  function ParseDestination(rules: Rules, v: Json, contentOnly: bool): Result<Destination> {
    var _ :- Need(v.Object?, InvalidDestination);
    var _ :- Need(OnlyKeys(v, DESTINATION_KEYS), UnknownField);
    var target :- ParseTarget(v);
    var placement :- ParsePlacement(rules, v, contentOnly);
    var references :- ParseReferences(rules, v, contentOnly);
    Ok(Destination(target, placement, references))
  }

  // ---------- writing ----------

  function TextOption(s: Option<string>): Option<Json> {
    if s.Some? then Some(Text(s.value)) else None
  }

  function WorkbookJson(staging: Option<string>): Option<Json> {
    if staging.Some? then Some(Object(map["stagingFolderId" := Text(staging.value)])) else None
  }

  function MappingsOption(keys: Keys, ms: Option<seq<Mapping>>): Option<Json> {
    if ms.Some? then Some(MappingsJson(keys, ms.value)) else None
  }

  function BindingsOption(bs: Option<seq<Binding>>): Option<Json> {
    if bs.Some? then Some(BindingsJson(bs.value)) else None
  }

  /** The field of a destination under this key, if it has one. */
  function FieldOf(d: Destination, key: string): Option<Json> {
    if key == TARGET_ID then Some(Text(d.target.targetId))
    else if key == INSTANCE_ID then Some(Text(d.target.instanceId))
    else if key == CONNECTION_ID then Some(Text(d.target.connectionId))
    else if key == MODEL_ID then Some(Text(d.target.modelId))
    else if key == FOLDER_ID then TextOption(d.placement.folderId)
    else if key == FOLDER_PATH then TextOption(d.placement.folderPath)
    else if key == BINDING_MAPPINGS then BindingsOption(d.placement.bindings)
    else if key == WORKBOOK_COPY then WorkbookJson(d.placement.stagingFolderId)
    else if key == TOPIC_MAPPINGS then MappingsOption(TOPICS, d.references.topics)
    else if key == QUERY_VIEW_MAPPINGS then MappingsOption(QUERY_VIEWS, d.references.queryViews)
    else None
  }

  function DestinationJson(d: Destination): Json {
    Record(DESTINATION_KEYS, key => FieldOf(d, key))
  }

  lemma FieldsOfDestination(d: Destination)
    ensures var v := DestinationJson(d);
            && OnlyKeys(v, DESTINATION_KEYS)
            && Get(v, TARGET_ID) == Some(Text(d.target.targetId)) && Get(v, INSTANCE_ID) == Some(Text(d.target.instanceId))
            && Get(v, CONNECTION_ID) == Some(Text(d.target.connectionId)) && Get(v, MODEL_ID) == Some(Text(d.target.modelId))
            && Get(v, FOLDER_ID) == TextOption(d.placement.folderId) && Get(v, FOLDER_PATH) == TextOption(d.placement.folderPath)
            && Get(v, BINDING_MAPPINGS) == BindingsOption(d.placement.bindings)
            && Get(v, WORKBOOK_COPY) == WorkbookJson(d.placement.stagingFolderId)
            && Get(v, TOPIC_MAPPINGS) == MappingsOption(TOPICS, d.references.topics)
            && Get(v, QUERY_VIEW_MAPPINGS) == MappingsOption(QUERY_VIEWS, d.references.queryViews)
  {}

  // ---------- reading back ----------

  /** Its mappings read back as they are. */
  predicate SettledReferences(r: References) {
    AllSettled(r.topics) && AllSettled(r.queryViews)
  }

  lemma OptionalTextAgain(v: Option<Json>, limit: nat)
    requires OptionalText(v, limit).Ok?
    ensures OptionalText(TextOption(OptionalText(v, limit).value), limit) == OptionalText(v, limit)
  {}

  lemma WorkbookAgain(v: Option<Json>, folderId: Option<string>, contentOnly: bool)
    requires ParseWorkbook(v, folderId, contentOnly).Ok?
    ensures ParseWorkbook(WorkbookJson(ParseWorkbook(v, folderId, contentOnly).value), folderId, contentOnly)
            == ParseWorkbook(v, folderId, contentOnly)
  {}

  /** Reading mappings back: they pass the check again, and are the same exactly when they are settled. */
  lemma MappingsOptionAgain(rules: Rules, keys: Keys, v: Option<Json>, contentOnly: bool)
    requires Usable(keys) && ParseMappings(rules, keys, v).Ok? && (contentOnly ==> CheckMappings(rules, keys, v).Ok?)
    ensures var ms := ParseMappings(rules, keys, v).value;
            var again := MappingsOption(keys, ms);
            && (contentOnly ==> AllSettled(ms) && CheckMappings(rules, keys, again).Ok?)
            && ParseMappings(rules, keys, again).Ok?
            && (ParseMappings(rules, keys, again).value == ms <==> AllSettled(ms))
  {
    if ParseMappings(rules, keys, v).value.Some? {
      MappingsAgain(rules, keys, v);
    }
    if contentOnly {
      CheckedMappingsAgain(rules, keys, v);
    }
  }

  lemma TargetAgain(v: Json, again: Json)
    requires ParseTarget(v).Ok?
    requires var t := ParseTarget(v).value;
             && Get(again, TARGET_ID) == Some(Text(t.targetId)) && Get(again, INSTANCE_ID) == Some(Text(t.instanceId))
             && Get(again, CONNECTION_ID) == Some(Text(t.connectionId)) && Get(again, MODEL_ID) == Some(Text(t.modelId))
    ensures ParseTarget(again) == ParseTarget(v)
  {
    BoundedAgain(Get(v, TARGET_ID), MAX_IDENTIFIER_LENGTH, InvalidDestination);
    BoundedAgain(Get(v, INSTANCE_ID), MAX_IDENTIFIER_LENGTH, InvalidDestination);
    BoundedAgain(Get(v, CONNECTION_ID), MAX_IDENTIFIER_LENGTH, InvalidDestination);
    BoundedAgain(Get(v, MODEL_ID), MAX_IDENTIFIER_LENGTH, InvalidDestination);
    hide Bounded, Get;
  }

  lemma PlacementAgain(rules: Rules, v: Json, again: Json, contentOnly: bool)
    requires ParsePlacement(rules, v, contentOnly).Ok?
    requires var p := ParsePlacement(rules, v, contentOnly).value;
             && Get(again, FOLDER_ID) == TextOption(p.folderId) && Get(again, FOLDER_PATH) == TextOption(p.folderPath)
             && Get(again, BINDING_MAPPINGS) == BindingsOption(p.bindings)
             && Get(again, WORKBOOK_COPY) == WorkbookJson(p.stagingFolderId)
    ensures ParsePlacement(rules, again, contentOnly) == ParsePlacement(rules, v, contentOnly)
  {
    OptionalTextAgain(Get(v, FOLDER_ID), MAX_IDENTIFIER_LENGTH);
    OptionalTextAgain(Get(v, FOLDER_PATH), MAX_FOLDER_PATH_LENGTH);
    var p := ParsePlacement(rules, v, contentOnly).value;
    BindingsOptionAgain(rules, Get(v, BINDING_MAPPINGS), contentOnly);
    WorkbookAgain(Get(v, WORKBOOK_COPY), p.folderId, contentOnly);
    hide OptionalText, ParseWorkbook, ParseBindings, TextOption, BindingsOption, WorkbookJson, Get;
  }

  lemma BindingsOptionAgain(rules: Rules, v: Option<Json>, contentOnly: bool)
    requires ParseBindings(rules, v, contentOnly).Ok?
    ensures ParseBindings(rules, BindingsOption(ParseBindings(rules, v, contentOnly).value), contentOnly) == ParseBindings(rules, v, contentOnly)
  {
    if v.Some? {
      BindingsAgain(rules, v.value);
    }
  }

  lemma ReferencesAgain(rules: Rules, v: Json, again: Json, contentOnly: bool)
    requires ParseReferences(rules, v, contentOnly).Ok?
    requires var r := ParseReferences(rules, v, contentOnly).value;
             && Get(again, TOPIC_MAPPINGS) == MappingsOption(TOPICS, r.topics)
             && Get(again, QUERY_VIEW_MAPPINGS) == MappingsOption(QUERY_VIEWS, r.queryViews)
    ensures ParseReferences(rules, again, contentOnly).Ok?
    ensures ParseReferences(rules, again, contentOnly) == ParseReferences(rules, v, contentOnly)
            <==> SettledReferences(ParseReferences(rules, v, contentOnly).value)
    ensures contentOnly ==> SettledReferences(ParseReferences(rules, v, contentOnly).value)
  {
    MappingsOptionAgain(rules, TOPICS, Get(v, TOPIC_MAPPINGS), contentOnly);
    MappingsOptionAgain(rules, QUERY_VIEWS, Get(v, QUERY_VIEW_MAPPINGS), contentOnly);
    hide ParseMappings, CheckMappings, AllSettled, MappingsOption, Get;
  }

  /** A parsed destination, written and read again, comes back the same exactly when its mappings are settled;
      in a content-only request they always are. */
  lemma DestinationAgain(rules: Rules, v: Json, contentOnly: bool)
    requires ParseDestination(rules, v, contentOnly).Ok?
    ensures var d := ParseDestination(rules, v, contentOnly).value;
            var again := ParseDestination(rules, DestinationJson(d), contentOnly);
            && again.Ok?
            && again.value.target == d.target && again.value.placement == d.placement
            && (again.value == d <==> SettledReferences(d.references))
            && (contentOnly ==> SettledReferences(d.references))
  {
    hide ParseTarget, ParsePlacement, ParseReferences, SettledReferences, OnlyKeys, Get;
    var d := ParseDestination(rules, v, contentOnly).value;
    var again := DestinationJson(d);
    FieldsOfDestination(d);
    TargetAgain(v, again);
    PlacementAgain(rules, v, again, contentOnly);
    ReferencesAgain(rules, v, again, contentOnly);
  }
}

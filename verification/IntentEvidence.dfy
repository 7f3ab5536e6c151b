/** The approved evidence that a deployment carries: its parser, and the JSON it is written back as. */
module IntentEvidence {
  import opened Options
  import opened Json
  import opened TextOrder
  import opened IntentValues

  const MAX_DOCUMENTS: nat := 500
  const MAX_AUTHORED_FILES: nat := 2000

  type Hashes = map<string, string>

  datatype Workbook = Workbook(workbookModelId: string, sharedModelId: string, fileHashes: Hashes, modelHash: string)

  datatype Deployment = Deployment(planId: string, sourceHashes: Hashes, modelHashes: Hashes, sourceModelHashes: Option<Hashes>,
                                   workbooks: Option<map<string, Workbook>>, fingerprints: Option<Hashes>)

  /** What the evidence has to cover: the documents, the targets, and whether any target stages a workbook. */
  datatype Scope = Scope(documents: set<string>, targets: set<string>, staged: bool)

  const VERSION: string := "version"
  const PLAN_ID: string := "planId"
  const SOURCE_HASHES: string := "sourceHashes"
  const MODEL_HASHES: string := "modelHashes"
  const SOURCE_MODEL_HASHES: string := "sourceModelHashes"
  const WORKBOOK_COPIES: string := "workbookCopies"
  const PACKAGE_COPY: string := "packageCopy"

  const DEPLOYMENT_KEYS: set<string> :=
    {VERSION, PLAN_ID, SOURCE_HASHES, MODEL_HASHES, SOURCE_MODEL_HASHES, WORKBOOK_COPIES, PACKAGE_COPY}

  const WORKBOOK_MODEL: string := "sourceWorkbookModelId"
  const SHARED_MODEL: string := "sourceSharedModelId"
  const FILE_HASHES: string := "authoredFileHashes"
  const MODEL_HASH: string := "authoredModelHash"

  const FINGERPRINTS: string := "targetFingerprints"
  const CONFIRM_AUDIENCE: string := "confirmDestinationAudience"
  const CONFIRM_DEPENDENCIES: string := "confirmDependencies"

  // ---------- hashes ----------

  predicate IsHash(rules: Rules, v: Option<Json>) {
    v.Some? && v.value.Text? && rules.hash(v.value.text)
  }

  /** One hash for each of these ids, and nothing else. */
  function ParseHashes(rules: Rules, v: Option<Json>, ids: set<string>): Result<Hashes> {
    var _ :- Need(v.Some? && v.value.Object? && |v.value.fields| == |ids|, InvalidDeployment);
    var _ :- Need(forall id :: id in ids ==> IsHash(rules, Get(v.value, id)), InvalidDeployment);
    Ok(map id | id in ids :: Get(v.value, id).value.text)
  }

  function HashesJson(hashes: Hashes): Json {
    Object(TextMap(hashes))
  }

  predicate AreHashes(rules: Rules, hashes: Hashes) {
    forall id :: id in hashes ==> rules.hash(hashes[id])
  }

  lemma ParsedHashes(rules: Rules, v: Option<Json>, ids: set<string>)
    requires ParseHashes(rules, v, ids).Ok?
    ensures ParseHashes(rules, v, ids).value.Keys == ids && AreHashes(rules, ParseHashes(rules, v, ids).value)
  {}

  /** Hashes written are read back for exactly their own ids. */
  lemma HashesRead(rules: Rules, hashes: Hashes)
    requires AreHashes(rules, hashes)
    ensures ParseHashes(rules, Some(HashesJson(hashes)), hashes.Keys) == Ok(hashes)
  {
    var v := HashesJson(hashes);
    assert v.fields.Keys == hashes.Keys && |v.fields| == |v.fields.Keys|;
    forall id | id in hashes
      ensures Get(v, id) == Some(Text(hashes[id]))
    {}
    assert ParseHashes(rules, Some(v), hashes.Keys).value == hashes;
  }

  lemma HashesAgain(rules: Rules, v: Option<Json>, ids: set<string>)
    requires ParseHashes(rules, v, ids).Ok?
    ensures ParseHashes(rules, v, ids).value.Keys == ids
    ensures ParseHashes(rules, Some(HashesJson(ParseHashes(rules, v, ids).value)), ids) == ParseHashes(rules, v, ids)
  {
    ParsedHashes(rules, v, ids);
    HashesRead(rules, ParseHashes(rules, v, ids).value);
  }

  /** The hashes cover their ids exactly: the object has these keys and no other. */
  lemma HashesCoverExactly(rules: Rules, v: Option<Json>, ids: set<string>)
    requires ParseHashes(rules, v, ids).Ok?
    ensures v.value.fields.Keys == ids
  {
    var keys := v.value.fields.Keys;
    assert ids <= keys && |keys| == |ids|;
    assert keys == ids + (keys - ids);
  }

  // ---------- tables ----------

  /** Every entry parsed, or the error of the first that fails, in the order of the keys. */
  function ParseTable<T>(fields: map<string, Json>, parse: (string, Json) -> Result<T>): Result<map<string, T>> {
    var failing := set k | k in fields && parse(k, fields[k]).Err?;
    if failing != {} then Err(parse(Least(failing), fields[Least(failing)]).code)
    else
      assert forall k :: k in fields ==> k !in failing;
      Ok(map k | k in fields :: parse(k, fields[k]).value)
  }

  lemma TableEntries<T>(fields: map<string, Json>, parse: (string, Json) -> Result<T>)
    ensures ParseTable(fields, parse).Ok? <==> forall k :: k in fields ==> parse(k, fields[k]).Ok?
    ensures ParseTable(fields, parse).Ok? ==>
              var t := ParseTable(fields, parse).value;
              t.Keys == fields.Keys && forall k :: k in fields ==> parse(k, fields[k]) == Ok(t[k])
  {
    var failing := set k | k in fields && parse(k, fields[k]).Err?;
    if failing == {} {
      assert forall k :: k in fields ==> k !in failing;
    }
  }

  function WriteTable<T>(table: map<string, T>, write: T -> Json): (fields: map<string, Json>)
    ensures fields.Keys == table.Keys && forall k :: k in table ==> fields[k] == write(table[k])
  {
    map k | k in table :: write(table[k])
  }

  lemma TableAgain<T>(table: map<string, T>, parse: (string, Json) -> Result<T>, write: T -> Json)
    requires forall k :: k in table ==> parse(k, write(table[k])) == Ok(table[k])
    ensures ParseTable(WriteTable(table, write), parse) == Ok(table)
  {
    TableEntries(WriteTable(table, write), parse);
    hide ParseTable;
    assert ParseTable(WriteTable(table, write), parse).value == table;
  }

  // ---------- source models ----------

  function ParseSourceModels(rules: Rules, v: Option<Json>): Result<Option<Hashes>> {
    if v.None? then Ok(None)
    else
      var _ :- Need(v.value.Object? && 0 < |v.value.fields| <= MAX_DOCUMENTS, InvalidDeployment);
      var _ :- ParseTable(v.value.fields, (id: string, _: Json) => TrimmedId(id));
      var hashes :- ParseHashes(rules, v, v.value.fields.Keys);
      Ok(Some(hashes))
  }

  /** A model identifier must be spelled without surrounding space. */
  function TrimmedId(id: string): Result<string> {
    var trimmed :- Identifier(Some(Text(id)), InvalidDeployment);
    if trimmed == id then Ok(id) else Err(InvalidDeployment)
  }

  lemma SourceModelsAgain(rules: Rules, v: Option<Json>)
    requires ParseSourceModels(rules, v).Ok?
    ensures ParseSourceModels(rules, HashesOption(ParseSourceModels(rules, v).value)) == ParseSourceModels(rules, v)
  {
    hide ParseHashes, ParseTable, TrimmedId, HashesJson;
    if v.Some? {
      FilesAgain(rules, v.value);
      var again := HashesJson(ParseHashes(rules, v, v.value.fields.Keys).value);
      TableEntries(v.value.fields, (id: string, _: Json) => TrimmedId(id));
      TableEntries(again.fields, (id: string, _: Json) => TrimmedId(id));
    }
  }

  function HashesOption(hashes: Option<Hashes>): Option<Json> {
    if hashes.Some? then Some(HashesJson(hashes.value)) else None
  }

  // ---------- workbooks ----------

  function ParseWorkbook(rules: Rules, documents: set<string>, id: string, v: Json): Result<Workbook> {
    var _ :- Need(id in documents && v.Object?, InvalidDeployment);
    var _ :- Need(OnlyKeys(v, {WORKBOOK_MODEL, SHARED_MODEL, FILE_HASHES, MODEL_HASH}), UnknownField);
    var workbookModel :- Identifier(Get(v, WORKBOOK_MODEL), InvalidDeployment);
    var sharedModel :- Identifier(Get(v, SHARED_MODEL), InvalidDeployment);
    var files := Get(v, FILE_HASHES);
    var _ :- Need(workbookModel != sharedModel && files.Some? && files.value.Object?, InvalidDeployment);
    var _ :- Need(|files.value.fields| <= MAX_AUTHORED_FILES && forall name :: name in files.value.fields ==> rules.authoredPath(name), InvalidDeployment);
    var fileHashes :- ParseHashes(rules, files, files.value.fields.Keys);
    var _ :- Need(IsHash(rules, Get(v, MODEL_HASH)), InvalidDeployment);
    Ok(Workbook(workbookModel, sharedModel, fileHashes, Get(v, MODEL_HASH).value.text))
  }

  function WorkbookField(w: Workbook, key: string): Option<Json> {
    if key == WORKBOOK_MODEL then Some(Text(w.workbookModelId))
    else if key == SHARED_MODEL then Some(Text(w.sharedModelId))
    else if key == FILE_HASHES then Some(HashesJson(w.fileHashes))
    else if key == MODEL_HASH then Some(Text(w.modelHash))
    else None
  }

  function WorkbookJson(w: Workbook): Json {
    Record({WORKBOOK_MODEL, SHARED_MODEL, FILE_HASHES, MODEL_HASH}, key => WorkbookField(w, key))
  }

  lemma WorkbookFields(w: Workbook)
    ensures var v := WorkbookJson(w);
            && Get(v, WORKBOOK_MODEL) == Some(Text(w.workbookModelId)) && Get(v, SHARED_MODEL) == Some(Text(w.sharedModelId))
            && Get(v, FILE_HASHES) == Some(HashesJson(w.fileHashes)) && Get(v, MODEL_HASH) == Some(Text(w.modelHash))
            && OnlyKeys(v, {WORKBOOK_MODEL, SHARED_MODEL, FILE_HASHES, MODEL_HASH})
  {}

  lemma WorkbookAgain(rules: Rules, documents: set<string>, id: string, v: Json)
    requires ParseWorkbook(rules, documents, id, v).Ok?
    ensures ParseWorkbook(rules, documents, id, WorkbookJson(ParseWorkbook(rules, documents, id, v).value)) == ParseWorkbook(rules, documents, id, v)
  {
    hide Bounded, ParseHashes, HashesJson, WorkbookJson, OnlyKeys, Get;
    var w := ParseWorkbook(rules, documents, id, v).value;
    WorkbookFields(w);
    BoundedAgain(Get(v, WORKBOOK_MODEL), MAX_IDENTIFIER_LENGTH, InvalidDeployment);
    BoundedAgain(Get(v, SHARED_MODEL), MAX_IDENTIFIER_LENGTH, InvalidDeployment);
    FilesAgain(rules, Get(v, FILE_HASHES).value);
  }

  lemma FilesAgain(rules: Rules, files: Json)
    requires files.Object? && ParseHashes(rules, Some(files), files.fields.Keys).Ok?
    ensures var again := HashesJson(ParseHashes(rules, Some(files), files.fields.Keys).value);
            && again.Object? && again.fields.Keys == files.fields.Keys && |again.fields| == |files.fields|
            && ParseHashes(rules, Some(again), again.fields.Keys) == ParseHashes(rules, Some(files), files.fields.Keys)
  {
    HashesAgain(rules, Some(files), files.fields.Keys);
    var again := HashesJson(ParseHashes(rules, Some(files), files.fields.Keys).value);
    hide ParseHashes;
    assert again.fields.Keys == files.fields.Keys;
    SameKeysSameSize(again.fields, files.fields);
  }

  lemma SameKeysSameSize(a: map<string, Json>, b: map<string, Json>)
    requires a.Keys == b.Keys
    ensures |a| == |b|
  {
    assert |a.Keys| == |a| && |b.Keys| == |b|;
  }

  function WorkbookParser(rules: Rules, documents: set<string>): (string, Json) -> Result<Workbook> {
    (id, entry) => ParseWorkbook(rules, documents, id, entry)
  }

  function ParseWorkbooks(rules: Rules, documents: set<string>, v: Option<Json>): Result<Option<map<string, Workbook>>> {
    if v.None? then Ok(None)
    else
      var _ :- Need(v.value.Object? && |v.value.fields| <= |documents|, InvalidDeployment);
      var table :- ParseTable(v.value.fields, WorkbookParser(rules, documents));
      Ok(Some(table))
  }

  function WorkbooksOption(workbooks: Option<map<string, Workbook>>): Option<Json> {
    if workbooks.Some? then Some(Object(WriteTable(workbooks.value, WorkbookJson))) else None
  }

  lemma WorkbooksAgain(rules: Rules, documents: set<string>, v: Option<Json>)
    requires ParseWorkbooks(rules, documents, v).Ok?
    ensures ParseWorkbooks(rules, documents, WorkbooksOption(ParseWorkbooks(rules, documents, v).value)) == ParseWorkbooks(rules, documents, v)
  {
    if v.Some? {
      var parse := WorkbookParser(rules, documents);
      var table := ParseTable(v.value.fields, parse).value;
      TableEntries(v.value.fields, parse);
      forall id | id in table
        ensures parse(id, WorkbookJson(table[id])) == Ok(table[id])
      {
        WorkbookAgain(rules, documents, id, v.value.fields[id]);
      }
      hide ParseTable, ParseWorkbook, WorkbookJson, WorkbookParser;
      TableAgain(table, parse, WorkbookJson);
      assert |WriteTable(table, WorkbookJson)| == |table.Keys| == |v.value.fields.Keys| == |v.value.fields|;
    }
  }

  // ---------- package ----------

  function ParsePackage(rules: Rules, targets: set<string>, v: Option<Json>): Result<Option<Hashes>> {
    if v.None? then Ok(None)
    else
      var _ :- Need(v.value.Object? && Get(v.value, VERSION) == Some(Number(1)) && Get(v.value, CONFIRM_AUDIENCE) == Some(Bool(true))
                    && Get(v.value, CONFIRM_DEPENDENCIES) == Some(Bool(true)), InvalidDeployment);
      var _ :- Need(OnlyKeys(v.value, {VERSION, FINGERPRINTS, CONFIRM_AUDIENCE, CONFIRM_DEPENDENCIES}), UnknownField);
      var fingerprints :- ParseHashes(rules, Get(v.value, FINGERPRINTS), targets);
      Ok(Some(fingerprints))
  }

  function PackageField(fingerprints: Hashes, key: string): Option<Json> {
    if key == VERSION then Some(Number(1))
    else if key == FINGERPRINTS then Some(HashesJson(fingerprints))
    else if key == CONFIRM_AUDIENCE || key == CONFIRM_DEPENDENCIES then Some(Bool(true))
    else None
  }

  function PackageOption(fingerprints: Option<Hashes>): Option<Json> {
    if fingerprints.None? then None
    else Some(Record({VERSION, FINGERPRINTS, CONFIRM_AUDIENCE, CONFIRM_DEPENDENCIES}, key => PackageField(fingerprints.value, key)))
  }

  /** A package written back is accepted for exactly the targets its fingerprints cover. */
  lemma PackageReads(rules: Rules, fingerprints: Hashes, targets: set<string>)
    ensures ParsePackage(rules, targets, PackageOption(Some(fingerprints)))
            == var hashes := ParseHashes(rules, Some(HashesJson(fingerprints)), targets);
               if hashes.Ok? then Ok(Some(hashes.value)) else Err(hashes.code)
  {}

  // ---------- evidence ----------

  function ParseDeployment(rules: Rules, scope: Scope, v: Json): Result<Deployment> {
    var _ :- Need(v.Object? && Get(v, VERSION) == Some(Number(2)), InvalidDeployment);
    var _ :- Need(OnlyKeys(v, DEPLOYMENT_KEYS), UnknownField);
    var sourceModels :- ParseSourceModels(rules, Get(v, SOURCE_MODEL_HASHES));
    var workbooks :- ParseWorkbooks(rules, scope.documents, Get(v, WORKBOOK_COPIES));
    var _ :- Need(scope.staged ==> workbooks.Some? && workbooks.value != map[], InvalidDeployment);
    var fingerprints :- ParsePackage(rules, scope.targets, Get(v, PACKAGE_COPY));
    var planId :- Identifier(Get(v, PLAN_ID), InvalidDeployment);
    var sourceHashes :- ParseHashes(rules, Get(v, SOURCE_HASHES), scope.documents);
    var modelHashes :- ParseHashes(rules, Get(v, MODEL_HASHES), scope.targets);
    Ok(Deployment(planId, sourceHashes, modelHashes, sourceModels, workbooks, fingerprints))
  }

  function DeploymentField(d: Deployment, key: string): Option<Json> {
    if key == VERSION then Some(Number(2))
    else if key == PLAN_ID then Some(Text(d.planId))
    else if key == SOURCE_HASHES then Some(HashesJson(d.sourceHashes))
    else if key == MODEL_HASHES then Some(HashesJson(d.modelHashes))
    else if key == SOURCE_MODEL_HASHES then HashesOption(d.sourceModelHashes)
    else if key == WORKBOOK_COPIES then WorkbooksOption(d.workbooks)
    else if key == PACKAGE_COPY then PackageOption(d.fingerprints)
    else None
  }

  function DeploymentJson(d: Deployment): Json {
    Record(DEPLOYMENT_KEYS, key => DeploymentField(d, key))
  }

  lemma DeploymentFields(d: Deployment)
    ensures var v := DeploymentJson(d);
            && v.Object? && OnlyKeys(v, DEPLOYMENT_KEYS)
            && Get(v, VERSION) == Some(Number(2)) && Get(v, PLAN_ID) == Some(Text(d.planId))
            && Get(v, SOURCE_HASHES) == Some(HashesJson(d.sourceHashes)) && Get(v, MODEL_HASHES) == Some(HashesJson(d.modelHashes))
            && Get(v, SOURCE_MODEL_HASHES) == HashesOption(d.sourceModelHashes)
            && Get(v, WORKBOOK_COPIES) == WorkbooksOption(d.workbooks) && Get(v, PACKAGE_COPY) == PackageOption(d.fingerprints)
  {}

  // ---------- narrowing ----------

  function Keep(hashes: Hashes, targets: set<string>): Hashes {
    map id | id in hashes && id in targets :: hashes[id]
  }

  /** Evidence for some of the targets. */
  function NarrowDeployment(d: Deployment, targets: set<string>): Deployment {
    d.(modelHashes := Keep(d.modelHashes, targets),
       fingerprints := if d.fingerprints.Some? then Some(Keep(d.fingerprints.value, targets)) else None)
  }

  lemma KeptHashesRead(rules: Rules, v: Option<Json>, ids: set<string>, targets: set<string>)
    requires ParseHashes(rules, v, ids).Ok? && targets <= ids
    ensures var kept := Keep(ParseHashes(rules, v, ids).value, targets);
            ParseHashes(rules, Some(HashesJson(kept)), targets) == Ok(kept)
  {
    ParsedHashes(rules, v, ids);
    var kept := Keep(ParseHashes(rules, v, ids).value, targets);
    hide ParseHashes;
    assert kept.Keys == targets;
    HashesRead(rules, kept);
  }

  lemma KeptPackageReads(rules: Rules, v: Option<Json>, ids: set<string>, targets: set<string>)
    requires ParsePackage(rules, ids, v).Ok? && targets <= ids
    ensures var f := ParsePackage(rules, ids, v).value;
            var kept := if f.Some? then Some(Keep(f.value, targets)) else None;
            ParsePackage(rules, targets, PackageOption(kept)) == Ok(kept)
  {
    if v.Some? {
      KeptHashesRead(rules, Get(v.value, FINGERPRINTS), ids, targets);
      PackageReads(rules, Keep(ParsePackage(rules, ids, v).value.value, targets), targets);
    }
    hide ParseHashes, Keep, HashesJson;
  }

  /** Parsed evidence, narrowed to some of its targets, is read back unchanged for the narrower scope. */
  lemma NarrowedDeploymentReads(rules: Rules, scope: Scope, v: Json, targets: set<string>, staged: bool)
    requires ParseDeployment(rules, scope, v).Ok? && targets <= scope.targets && (staged ==> scope.staged)
    ensures var d := NarrowDeployment(ParseDeployment(rules, scope, v).value, targets);
            ParseDeployment(rules, Scope(scope.documents, targets, staged), DeploymentJson(d)) == Ok(d)
  {
    hide Bounded, ParseHashes, ParseSourceModels, ParseWorkbooks, ParsePackage, HashesOption, WorkbooksOption,
         PackageOption, HashesJson, DeploymentJson, OnlyKeys, Get, Keep;
    var parsed := ParseDeployment(rules, scope, v).value;
    var d := NarrowDeployment(parsed, targets);
    DeploymentFields(d);
    BoundedAgain(Get(v, PLAN_ID), MAX_IDENTIFIER_LENGTH, InvalidDeployment);
    HashesAgain(rules, Get(v, SOURCE_HASHES), scope.documents);
    KeptHashesRead(rules, Get(v, MODEL_HASHES), scope.targets, targets);
    SourceModelsAgain(rules, Get(v, SOURCE_MODEL_HASHES));
    WorkbooksAgain(rules, scope.documents, Get(v, WORKBOOK_COPIES));
    KeptPackageReads(rules, Get(v, PACKAGE_COPY), scope.targets, targets);
  }

  /** Parsed evidence is read back unchanged. */
  lemma DeploymentAgain(rules: Rules, scope: Scope, v: Json)
    requires ParseDeployment(rules, scope, v).Ok?
    ensures ParseDeployment(rules, scope, DeploymentJson(ParseDeployment(rules, scope, v).value)) == ParseDeployment(rules, scope, v)
  {
    var d := ParseDeployment(rules, scope, v).value;
    NarrowedDeploymentReads(rules, scope, v, scope.targets, scope.staged);
    CoversScope(rules, scope, v);
    hide ParseDeployment, DeploymentJson, NarrowDeployment;
    NarrowToAll(d, scope.targets);
  }

  lemma NarrowToAll(d: Deployment, targets: set<string>)
    requires d.modelHashes.Keys == targets && (d.fingerprints.Some? ==> d.fingerprints.value.Keys == targets)
    ensures NarrowDeployment(d, targets) == d
  {
    assert Keep(d.modelHashes, targets) == d.modelHashes;
    assert d.fingerprints.Some? ==> Keep(d.fingerprints.value, targets) == d.fingerprints.value;
  }

  /** Evidence covers its documents and targets exactly. */
  lemma CoversScope(rules: Rules, scope: Scope, v: Json)
    requires ParseDeployment(rules, scope, v).Ok?
    ensures var d := ParseDeployment(rules, scope, v).value;
            && d.sourceHashes.Keys == scope.documents && d.modelHashes.Keys == scope.targets
            && (d.fingerprints.Some? ==> d.fingerprints.value.Keys == scope.targets)
  {
    ParsedHashes(rules, Get(v, SOURCE_HASHES), scope.documents);
    ParsedHashes(rules, Get(v, MODEL_HASHES), scope.targets);
    if ParsePackage(rules, scope.targets, Get(v, PACKAGE_COPY)).value.Some? {
      ParsedHashes(rules, Get(Get(v, PACKAGE_COPY).value, FINGERPRINTS), scope.targets);
    }
    hide ParseHashes, ParseSourceModels, ParseWorkbooks, Bounded, Get, OnlyKeys, AreHashes;
  }
}

/** Which deployment evidence is accepted, told by its fields. */
module BodyEvidence {
  import opened Options
  import opened Json
  import opened TextOrder
  import opened IntentValues
  import opened IntentEvidence
  import opened BodyFields

  predicate IsHashText(rules: Rules, v: Json) {
    v.Text? && rules.hash(v.text)
  }

  /** One hash under each of these keys, and no other key. */
  predicate IsHashTable(rules: Rules, v: Option<Json>, ids: set<string>) {
    v.Some? && v.value.Object? && v.value.fields.Keys == ids && forall k :: k in v.value.fields ==> IsHashText(rules, v.value.fields[k])
  }

  /** At least one model, at most 500, under names without space around them. */
  predicate AreSourceModels(rules: Rules, v: Option<Json>) {
    v.Some? ==>
      && v.value.Object? && 1 <= |v.value.fields| <= 500
      && forall k :: k in v.value.fields ==>
           IsHashText(rules, v.value.fields[k]) && IsName(Some(Text(k)), 256) && NameOf(Some(Text(k))) == k
  }

  /** A workbook model and another shared one, and hashes for at most 2,000 authored files and for the model. */
  predicate IsWorkbook(rules: Rules, v: Json) {
    && v.Object?
    && v.fields.Keys <= {"sourceWorkbookModelId", "sourceSharedModelId", "authoredFileHashes", "authoredModelHash"}
    && IsName(Get(v, "sourceWorkbookModelId"), 256) && IsName(Get(v, "sourceSharedModelId"), 256)
    && NameOf(Get(v, "sourceWorkbookModelId")) != NameOf(Get(v, "sourceSharedModelId"))
    && var files, model := Get(v, "authoredFileHashes"), Get(v, "authoredModelHash");
       && files.Some? && files.value.Object? && |files.value.fields| <= 2000
       && (forall k :: k in files.value.fields ==> rules.authoredPath(k) && IsHashText(rules, files.value.fields[k]))
       && model.Some? && IsHashText(rules, model.value)
  }

  /** Workbooks of some of the documents; of one at least when some destination stages a workbook. */
  predicate AreWorkbooks(rules: Rules, v: Option<Json>, documents: set<string>, staged: bool) {
    && (v.Some? ==> v.value.Object? && v.value.fields.Keys <= documents && forall k :: k in v.value.fields ==> IsWorkbook(rules, v.value.fields[k]))
    && (staged ==> v.Some? && v.value.Object? && v.value.fields != map[])
  }

  /** A package that both confirmations approve, with a fingerprint for each target. */
  predicate IsPackage(rules: Rules, v: Option<Json>, targets: set<string>) {
    v.Some? ==>
      && v.value.Object?
      && v.value.fields.Keys <= {"version", "targetFingerprints", "confirmDestinationAudience", "confirmDependencies"}
      && Get(v.value, "version") == Some(Number(1))
      && Get(v.value, "confirmDestinationAudience") == Some(Bool(true)) && Get(v.value, "confirmDependencies") == Some(Bool(true))
      && IsHashTable(rules, Get(v.value, "targetFingerprints"), targets)
  }

  predicate IsEvidence(rules: Rules, v: Json, documents: set<string>, targets: set<string>, staged: bool) {
    && v.Object?
    && v.fields.Keys <= {"version", "planId", "sourceHashes", "modelHashes", "sourceModelHashes", "workbookCopies", "packageCopy"}
    && Get(v, "version") == Some(Number(2)) && IsName(Get(v, "planId"), 256)
    && IsHashTable(rules, Get(v, "sourceHashes"), documents) && IsHashTable(rules, Get(v, "modelHashes"), targets)
    && AreSourceModels(rules, Get(v, "sourceModelHashes"))
    && AreWorkbooks(rules, Get(v, "workbookCopies"), documents, staged)
    && IsPackage(rules, Get(v, "packageCopy"), targets)
  }

  // ---------- each part ----------

  lemma SameSize(m: map<string, Json>, ids: set<string>)
    ensures m.Keys == ids <==> ids <= m.Keys && |m| == |ids|
  {
    assert |m| == |m.Keys|;
    if ids <= m.Keys && |m| == |ids| {
      assert m.Keys == ids + (m.Keys - ids);
    }
  }

  lemma HashesExactly(rules: Rules, v: Option<Json>, ids: set<string>)
    ensures ParseHashes(rules, v, ids).Ok? <==> IsHashTable(rules, v, ids)
    ensures IsHashTable(rules, v, ids) ==>
              forall k :: k in ids ==> k in ParseHashes(rules, v, ids).value && Text(ParseHashes(rules, v, ids).value[k]) == v.value.fields[k]
  {
    if v.Some? && v.value.Object? {
      SameSize(v.value.fields, ids);
    }
  }

  lemma OwnKeysExactly(rules: Rules, v: Json)
    requires v.Object?
    ensures ParseHashes(rules, Some(v), v.fields.Keys).Ok? <==> forall k :: k in v.fields ==> IsHashText(rules, v.fields[k])
  {
    HashesExactly(rules, Some(v), v.fields.Keys);
    hide ParseHashes;
  }

  lemma TrimmedExactly(id: string)
    ensures TrimmedId(id).Ok? <==> IsName(Some(Text(id)), 256) && NameOf(Some(Text(id))) == id
  {
    hide Bounded, IsName, NameOf;
    BoundedExactly(Some(Text(id)), 256, InvalidDeployment);
  }

  lemma SourceModelsExactly(rules: Rules, v: Option<Json>)
    ensures ParseSourceModels(rules, v).Ok? <==> AreSourceModels(rules, v)
    ensures ParseSourceModels(rules, v).Ok? ==> (ParseSourceModels(rules, v).value.Some? <==> v.Some?)
  {
    hide ParseHashes, ParseTable, TrimmedId, IsName, NameOf;
    if v.Some? && v.value.Object? {
      var fields := v.value.fields;
      TableEntries(fields, (id: string, _: Json) => TrimmedId(id));
      OwnKeysExactly(rules, v.value);
      forall k
        ensures TrimmedId(k).Ok? <==> IsName(Some(Text(k)), 256) && NameOf(Some(Text(k))) == k
      {
        TrimmedExactly(k);
      }
    }
  }

  lemma WorkbookExactly(rules: Rules, documents: set<string>, id: string, v: Json)
    ensures ParseWorkbook(rules, documents, id, v).Ok? <==> id in documents && IsWorkbook(rules, v)
  {
    hide Bounded, IsName, NameOf, ParseHashes, Get;
    BoundedExactly(Get(v, "sourceWorkbookModelId"), 256, InvalidDeployment);
    BoundedExactly(Get(v, "sourceSharedModelId"), 256, InvalidDeployment);
    var files := Get(v, "authoredFileHashes");
    if files.Some? && files.value.Object? {
      OwnKeysExactly(rules, files.value);
    }
  }

  lemma WorkbooksExactly(rules: Rules, v: Option<Json>, documents: set<string>, staged: bool)
    ensures ParseWorkbooks(rules, documents, v).Ok?
            && (staged ==> ParseWorkbooks(rules, documents, v).value.Some? && ParseWorkbooks(rules, documents, v).value.value != map[])
            <==> AreWorkbooks(rules, v, documents, staged)
  {
    hide ParseTable, ParseWorkbook, IsWorkbook;
    if v.Some? && v.value.Object? {
      var fields, parse := v.value.fields, WorkbookParser(rules, documents);
      TableEntries(fields, parse);
      forall k | k in fields
        ensures parse(k, fields[k]).Ok? <==> k in documents && IsWorkbook(rules, fields[k])
      {
        WorkbookExactly(rules, documents, k, fields[k]);
      }
      if fields.Keys <= documents {
        NoMore(fields, documents);
      }
      if ParseTable(fields, parse).Ok? {
        assert ParseTable(fields, parse).value == map[] <==> fields == map[] by {
          assert ParseTable(fields, parse).value.Keys == fields.Keys;
        }
      }
    }
  }

  lemma NoMore(m: map<string, Json>, ids: set<string>)
    requires m.Keys <= ids
    ensures |m| <= |ids|
  {
    assert |m| == |m.Keys|;
    assert ids == m.Keys + (ids - m.Keys);
  }

  lemma PackageExactly(rules: Rules, v: Option<Json>, targets: set<string>)
    ensures ParsePackage(rules, targets, v).Ok? <==> IsPackage(rules, v, targets)
    ensures ParsePackage(rules, targets, v).Ok? ==> (ParsePackage(rules, targets, v).value.Some? <==> v.Some?)
  {
    hide ParseHashes, IsHashTable, Get;
    if v.Some? {
      HashesExactly(rules, Get(v.value, "targetFingerprints"), targets);
    }
  }

  /** Evidence is accepted exactly when its fields are as they have to be for these documents and targets. */
  lemma EvidenceExactly(rules: Rules, v: Json, documents: set<string>, targets: set<string>, staged: bool)
    ensures ParseDeployment(rules, Scope(documents, targets, staged), v).Ok? <==> IsEvidence(rules, v, documents, targets, staged)
    ensures ParseDeployment(rules, Scope(documents, targets, staged), v).Ok? ==>
              var d := ParseDeployment(rules, Scope(documents, targets, staged), v).value;
              d.planId == NameOf(Get(v, "planId")) && (d.fingerprints.Some? <==> Get(v, "packageCopy").Some?)
  {
    hide Bounded, IsName, NameOf, ParseHashes, IsHashTable, ParseSourceModels, AreSourceModels, ParseWorkbooks, AreWorkbooks, ParsePackage,
         IsPackage, Get;
    BoundedExactly(Get(v, "planId"), 256, InvalidDeployment);
    HashesExactly(rules, Get(v, "sourceHashes"), documents);
    HashesExactly(rules, Get(v, "modelHashes"), targets);
    SourceModelsExactly(rules, Get(v, "sourceModelHashes"));
    WorkbooksExactly(rules, Get(v, "workbookCopies"), documents, staged);
    PackageExactly(rules, Get(v, "packageCopy"), targets);
  }
}

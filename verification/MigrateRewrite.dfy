/** Rewriting an exported dashboard for another model and folder. */
module MigrateRewrite {
  import opened Options
  import opened Json

  const BASE_MODEL_ID: string := "baseModelId"
  const FILE_PATH: string := "filePath"

  const MODEL_ID_KEYS: set<string> := {BASE_MODEL_ID, "base_model_id", "sharedModelId", "shared_model_id"}
  const FOLDER_PATH_KEYS: set<string> :=
    {"folderPath", "folder_path", FILE_PATH, "file_path", "folder", "path", "parentPath", "parent_path"}

  const MAX_DEPTH: nat := 10

  lemma KeysAreApart()
    ensures MODEL_ID_KEYS !! FOLDER_PATH_KEYS
    ensures BASE_MODEL_ID in MODEL_ID_KEYS && FILE_PATH in FOLDER_PATH_KEYS
  {}

  /** What a rewrite is asked for: model ids to map, the folder (empty when none is requested) and the target model. */
  datatype Request = Request(mapping: map<string, string>, folder: string, target: string)

  // ---------- the passes ----------

  function Walk(q: Request, v: Json): Json
    decreases v, 0
  {
    match v
    case List(items) => List(seq(|items|, i requires 0 <= i < |items| => Walk(q, items[i])))
    case Object(fields) => Object(map k | k in fields :: WalkField(q, k, fields[k]))
    case _ => v
  }

  function WalkField(q: Request, key: string, v: Json): Json
    decreases v, 1
  {
    if key in MODEL_ID_KEYS && v.Text? && v.text in q.mapping && q.mapping[v.text] != "" then Text(q.mapping[v.text])
    else if key in FOLDER_PATH_KEYS && v.Text? then (if q.folder != "" then Text(q.folder) else v)
    else Walk(q, v)
  }

  /** Some folder field anywhere holds a text. */
  predicate HasFolderText(v: Json) {
    match v
    case List(items) => exists i :: 0 <= i < |items| && HasFolderText(items[i])
    case Object(fields) => exists k :: k in fields && ((k in FOLDER_PATH_KEYS && fields[k].Text?) || HasFolderText(fields[k]))
    case _ => false
  }

  function InjectFolder(q: Request, v: Json): Json {
    if v.Object? then Object(v.fields[FILE_PATH := Text(q.folder)]) else v
  }

  predicate IsModelId(key: string, v: Json) {
    key in MODEL_ID_KEYS && v.Text? && v.text != ""
  }

  function EnsureModelId(q: Request, v: Json): Json {
    if !v.Object? || (exists k :: k in v.fields && IsModelId(k, v.fields[k])) then v
    else Object(v.fields[BASE_MODEL_ID := Text(q.target)])
  }

  /** The target model and every model that something is mapped to. */
  function Allowed(q: Request): set<string> {
    {q.target} + set id | id in q.mapping && q.mapping[id] != "" :: q.mapping[id]
  }

  function ReplaceAll(q: Request, v: Json, depth: nat): Json
    decreases v, 0
  {
    if depth == 0 then v
    else
      match v
      case List(items) => List(seq(|items|, i requires 0 <= i < |items| => ReplaceAll(q, items[i], depth - 1)))
      case Object(fields) => Object(map k | k in fields :: ReplaceField(q, k, fields[k], depth - 1))
      case _ => v
  }

  function ReplaceField(q: Request, key: string, v: Json, depth: nat): Json
    decreases v, 1
  {
    if IsModelId(key, v) && v.text !in Allowed(q) then Text(q.target) else ReplaceAll(q, v, depth)
  }

  function Moved(q: Request, v: Json): Json {
    if q.folder != "" && !HasFolderText(v) then InjectFolder(q, Walk(q, v)) else Walk(q, v)
  }

  function Rewrite(q: Request, v: Json): Json {
    ReplaceAll(q, EnsureModelId(q, Moved(q, v)), MAX_DEPTH)
  }

  // ---------- paths ----------

  datatype Step = Field(key: string) | Index(index: nat)

  function Child(v: Json, step: Step): Option<Json> {
    match step
    case Field(key) => Get(v, key)
    case Index(i) => if v.List? && i < |v.items| then Some(v.items[i]) else None
  }

  /** The value at the end of a path. */
  function At(v: Json, path: seq<Step>): Option<Json> {
    if path == [] then Some(v)
    else
      var child := Child(v, path[0]);
      if child.None? then None else At(child.value, path[1..])
  }

  function WalkStep(q: Request, step: Step, v: Json): Json {
    if step.Field? then WalkField(q, step.key, v) else Walk(q, v)
  }

  function ReplaceStep(q: Request, step: Step, v: Json, depth: nat): Json {
    if step.Field? then ReplaceField(q, step.key, v, depth) else ReplaceAll(q, v, depth)
  }

  function Last(path: seq<Step>): Step
    requires path != []
  {
    path[|path| - 1]
  }

  lemma ChildOfWalk(q: Request, v: Json, step: Step)
    ensures Child(Walk(q, v), step)
            == match Child(v, step) { case None => None case Some(x) => Some(WalkStep(q, step, x)) }
  {}

  /** A step of the walk that changes more than the fields below it changes a text. */
  lemma WalkStepIsWalk(q: Request, step: Step, v: Json)
    ensures !v.Text? ==> WalkStep(q, step, v) == Walk(q, v)
    ensures v.Text? ==> WalkStep(q, step, v).Text?
  {
    if v.Text? {
      assert Walk(q, v) == v;
    }
  }

  lemma {:induction false} WalkAt(q: Request, v: Json, path: seq<Step>)
    requires path != []
    ensures At(Walk(q, v), path)
            == match At(v, path) { case None => None case Some(x) => Some(WalkStep(q, Last(path), x)) }
    decreases |path|
  {
    ChildOfWalk(q, v, path[0]);
    if Child(v, path[0]).Some? && |path| > 1 {
      WalkStepIsWalk(q, path[0], Child(v, path[0]).value);
      WalkAt(q, Child(v, path[0]).value, path[1..]);
    }
  }

  lemma ChildOfReplace(q: Request, v: Json, step: Step, depth: nat)
    requires depth > 0
    ensures Child(ReplaceAll(q, v, depth), step)
            == match Child(v, step) { case None => None case Some(x) => Some(ReplaceStep(q, step, x, depth - 1)) }
  {}

  lemma ReplaceStepIsReplace(q: Request, step: Step, v: Json, depth: nat)
    ensures !v.Text? ==> ReplaceStep(q, step, v, depth) == ReplaceAll(q, v, depth)
    ensures v.Text? <==> ReplaceStep(q, step, v, depth).Text?
  {
    if !v.List? && !v.Object? {
      assert ReplaceAll(q, v, depth) == v;
    } else {
      assert !ReplaceAll(q, v, depth).Text?;
    }
  }

  lemma LeafReplaced(q: Request, step: Step, v: Json, depth: nat)
    requires !v.List? && !v.Object?
    ensures ReplaceStep(q, step, v, depth)
            == if step.Field? && IsModelId(step.key, v) && v.text !in Allowed(q) then Text(q.target) else v
  {
    hide IsModelId, Allowed;
    assert ReplaceAll(q, v, depth) == v;
  }

  /** Below the depth reached, nothing is replaced. */
  lemma {:induction false} ReplaceAt(q: Request, v: Json, path: seq<Step>, depth: nat)
    requires path != []
    ensures At(ReplaceAll(q, v, depth), path)
            == match At(v, path) { case None => None case Some(x) =>
                 Some(if |path| <= depth then ReplaceStep(q, Last(path), x, depth - |path|) else x) }
    decreases |path|
  {
    if depth > 0 {
      ChildOfReplace(q, v, path[0], depth);
      if Child(v, path[0]).Some? && |path| > 1 {
        ReplaceStepIsReplace(q, path[0], Child(v, path[0]).value, depth - 1);
        ReplaceAt(q, Child(v, path[0]).value, path[1..], depth - 1);
      }
    }
  }

  // ---------- what comes out ----------

  /** The object has a model id of its own at its top level. */
  predicate HasOwnModelId(v: Json) {
    v.Object? && exists k :: k in v.fields && IsModelId(k, v.fields[k])
  }

  /** The rewrite puts a value of its own at this top-level field, whatever was there. */
  predicate Overwritten(q: Request, v: Json, step: Step) {
    v.Object?
    && ((step == Field("filePath") && q.folder != "" && !HasFolderText(v))
        || (step == Field("baseModelId") && !HasOwnModelId(Walk(q, v))))
  }

  /** The value that takes the place of x at a path. */
  function ValueAt(q: Request, path: seq<Step>, x: Json): Json
    requires path != []
  {
    var walked := WalkStep(q, Last(path), x);
    if |path| <= MAX_DEPTH then ReplaceStep(q, Last(path), walked, MAX_DEPTH - |path|) else walked
  }

  lemma FolderIsNoModelId(q: Request, v: Json)
    ensures HasOwnModelId(Moved(q, v)) <==> HasOwnModelId(Walk(q, v))
  {
    KeysAreApart();
    hide MODEL_ID_KEYS, FOLDER_PATH_KEYS, HasFolderText, Walk;
    if HasOwnModelId(Walk(q, v)) {
      var k :| k in Walk(q, v).fields && IsModelId(k, Walk(q, v).fields[k]);
      assert k != FILE_PATH && k in Moved(q, v).fields;
    }
  }

  /** Before the replacing pass, only the overwritten fields differ from the walk. */
  lemma ChildBeforeReplacing(q: Request, v: Json, step: Step)
    ensures Child(EnsureModelId(q, Moved(q, v)), step)
            == if !Overwritten(q, v, step) then Child(Walk(q, v), step)
               else Some(Text(if step == Field(FILE_PATH) then q.folder else q.target))
  {
    FolderIsNoModelId(q, v);
    KeysAreApart();
    assert Walk(q, v).Object? <==> v.Object?;
    hide MODEL_ID_KEYS, FOLDER_PATH_KEYS, HasFolderText, Walk, IsModelId;
    var w := Walk(q, v);
    assert FILE_PATH != BASE_MODEL_ID;
  }

  /** The whole rewrite, position by position: outside the overwritten fields, every position there was is there still
      and no other, and holds the value that the mapping, the folder and the depth make of the one that was there. */
  lemma RewriteAt(q: Request, v: Json, path: seq<Step>)
    requires path != [] && !Overwritten(q, v, path[0])
    ensures At(Rewrite(q, v), path) == match At(v, path) { case None => None case Some(x) => Some(ValueAt(q, path, x)) }
  {
    var u := EnsureModelId(q, Moved(q, v));
    ChildBeforeReplacing(q, v, path[0]);
    assert At(u, path) == At(Walk(q, v), path);
    WalkAt(q, v, path);
    ReplaceAt(q, u, path, MAX_DEPTH);
    hide ReplaceAll, Walk, EnsureModelId, Moved, WalkStep, ReplaceStep, Overwritten;
  }

  lemma NothingBelowText(v: Json, path: seq<Step>, text: Json)
    requires path != [] && text.Text? && Child(v, path[0]) == Some(text)
    ensures At(v, path) == if |path| == 1 then Some(text) else None
  {}

  /** An overwritten field holds the folder or the target model, and nothing below. */
  lemma OverwrittenHolds(q: Request, v: Json, path: seq<Step>)
    requires path != [] && Overwritten(q, v, path[0])
    ensures At(Rewrite(q, v), path)
            == if |path| == 1 then Some(Text(if path[0] == Field(FILE_PATH) then q.folder else q.target)) else None
  {
    hide *;
    OverwrittenFields(q, v, path[0]);
    ChildBeforeReplacing(q, v, path[0]);
    OwnValueStays(q, path[0]);
    var u := EnsureModelId(q, Moved(q, v));
    TextSurvives(q, u, path, Child(u, path[0]).value);
    RewriteReplaces(q, v);
  }

  lemma OverwrittenFields(q: Request, v: Json, step: Step)
    requires Overwritten(q, v, step)
    ensures step == Field(FILE_PATH) || step == Field(BASE_MODEL_ID)
  {}

  lemma RewriteReplaces(q: Request, v: Json)
    ensures Rewrite(q, v) == ReplaceAll(q, EnsureModelId(q, Moved(q, v)), MAX_DEPTH)
  {}

  lemma TextSurvives(q: Request, u: Json, path: seq<Step>, text: Json)
    requires path != [] && text.Text? && Child(u, path[0]) == Some(text) && ReplaceStep(q, path[0], text, MAX_DEPTH - 1) == text
    ensures At(ReplaceAll(q, u, MAX_DEPTH), path) == if |path| == 1 then Some(text) else None
  {
    NothingBelowText(u, path, text);
    ReplaceAt(q, u, path, MAX_DEPTH);
  }

  lemma OwnValueStays(q: Request, step: Step)
    requires step == Field(FILE_PATH) || step == Field(BASE_MODEL_ID)
    ensures var text := Text(if step == Field(FILE_PATH) then q.folder else q.target);
            ReplaceStep(q, step, text, MAX_DEPTH - 1) == text
  {
    KeysAreApart();
    LeafReplaced(q, step, Text(if step == Field(FILE_PATH) then q.folder else q.target), MAX_DEPTH - 1);
  }

  // ---------- what a single value becomes ----------

  /** The request names this model: it is the target, or some model is mapped to it. */
  ghost predicate IsRequested(q: Request, id: string) {
    id == q.target || (id != "" && exists from :: from in q.mapping && q.mapping[from] == id)
  }

  lemma AllowedIsRequested(q: Request)
    ensures forall id :: id in Allowed(q) <==> IsRequested(q, id)
  {}

  function Mapped(q: Request, id: string): string {
    if id in q.mapping && q.mapping[id] != "" then q.mapping[id] else id
  }

  /** A value that is no list and no object keeps its place; only texts under model or folder keys change. */
  lemma LeafBecomes(q: Request, path: seq<Step>, x: Json)
    requires path != [] && !x.List? && !x.Object?
    ensures ValueAt(q, path, x)
            == if x.Text? && Last(path).Field? && Last(path).key in MODEL_ID_KEYS then
                 var id := Mapped(q, x.text);
                 Text(if |path| <= 10 && id != "" && !IsRequested(q, id) then q.target else id)
               else if x.Text? && Last(path).Field? && Last(path).key in FOLDER_PATH_KEYS && q.folder != "" then Text(q.folder)
               else x
  {
    AllowedIsRequested(q);
    KeysAreApart();
    assert Walk(q, x) == x;
    hide IsRequested;
    if |path| <= MAX_DEPTH {
      LeafReplaced(q, Last(path), WalkStep(q, Last(path), x), MAX_DEPTH - |path|);
    }
    hide MODEL_ID_KEYS, FOLDER_PATH_KEYS, Allowed, Walk, ReplaceStep;
  }

  /** Lists keep their length and objects below the top level their keys. */
  lemma ContainerStays(q: Request, path: seq<Step>, x: Json)
    requires path != [] && (x.List? || x.Object?)
    ensures x.List? ==> ValueAt(q, path, x).List? && |ValueAt(q, path, x).items| == |x.items|
    ensures x.Object? ==> ValueAt(q, path, x).Object? && ValueAt(q, path, x).fields.Keys == x.fields.Keys
  {
    var walked := Walk(q, x);
    WalkStepIsWalk(q, Last(path), x);
    if |path| <= MAX_DEPTH {
      ReplaceStepIsReplace(q, Last(path), walked, MAX_DEPTH - |path|);
      var replaced := ReplaceAll(q, walked, MAX_DEPTH - |path|);
      assert x.List? ==> replaced.List? && |replaced.items| == |x.items|;
      assert x.Object? ==> replaced.Object? && replaced.fields.Keys == x.fields.Keys;
    }
  }

  /** At the top level, too, a list keeps its length; an object gains at most the two fields. */
  lemma TopLevelStays(q: Request, v: Json)
    ensures v.List? ==> Rewrite(q, v).List? && |Rewrite(q, v).items| == |v.items|
    ensures v.Object? ==> Rewrite(q, v).Object?
                          && Rewrite(q, v).fields.Keys == v.fields.Keys + set k | k in {FILE_PATH, BASE_MODEL_ID} && Overwritten(q, v, Field(k))
    ensures !v.List? && !v.Object? ==> Rewrite(q, v) == v
  {
    if v.Object? {
      assert Rewrite(q, v).Object?;
      forall k
        ensures k in Rewrite(q, v).fields <==> k in v.fields || (k in {FILE_PATH, BASE_MODEL_ID} && Overwritten(q, v, Field(k)))
      {
        var path := [Field(k)];
        if Overwritten(q, v, Field(k)) {
          OverwrittenHolds(q, v, path);
        } else {
          RewriteAt(q, v, path);
        }
      }
    }
  }

  // ---------- main results ----------

  /** Every model id within the depth that is reached is the target or something that a model is mapped to. */
  lemma ModelIdsAreAllowed(q: Request, v: Json, path: seq<Step>)
    requires 0 < |path| <= 10 && Last(path).Field? && At(Rewrite(q, v), path).Some?
    requires IsModelId(Last(path).key, At(Rewrite(q, v), path).value)
    ensures IsRequested(q, At(Rewrite(q, v), path).value.text)
  {
    AllowedIsRequested(q);
    var u := EnsureModelId(q, Moved(q, v));
    ReplaceAt(q, u, path, MAX_DEPTH);
    var x := At(u, path).value;
    ReplaceStepIsReplace(q, Last(path), x, MAX_DEPTH - |path|);
    LeafReplaced(q, Last(path), x, MAX_DEPTH - |path|);
    hide ReplaceAll, EnsureModelId, Moved, At, ReplaceStep;
  }

  /** When a folder is requested, every folder text at any depth is that folder. */
  lemma FolderTextsAreFolder(q: Request, v: Json, path: seq<Step>)
    requires q.folder != "" && path != [] && Last(path).Field? && Last(path).key in FOLDER_PATH_KEYS
    requires At(Rewrite(q, v), path).Some? && At(Rewrite(q, v), path).value.Text?
    ensures At(Rewrite(q, v), path).value.text == q.folder
  {
    KeysAreApart();
    if Overwritten(q, v, path[0]) {
      OverwrittenHolds(q, v, path);
    } else {
      RewriteAt(q, v, path);
      var x := At(v, path).value;
      if x.List? || x.Object? {
        ContainerStays(q, path, x);
      } else {
        LeafBecomes(q, path, x);
      }
    }
  }

  ghost predicate HoldsRequested(q: Request, v: Json, key: string) {
    v.Object? && key in v.fields && IsModelId(key, v.fields[key]) && IsRequested(q, v.fields[key].text)
  }

  /** An object that is rewritten for a model has a model id at its top level, and one that is allowed. */
  lemma TopLevelModelIsAllowed(q: Request, v: Json)
    requires v.Object? && q.target != ""
    ensures exists k :: HoldsRequested(q, Rewrite(q, v), k)
  {
    AllowedIsRequested(q);
    var u := EnsureModelId(q, Moved(q, v));
    KeysAreApart();
    hide MODEL_ID_KEYS;
    assert HasOwnModelId(u) by {
      if !HasOwnModelId(Moved(q, v)) {
        assert IsModelId(BASE_MODEL_ID, u.fields[BASE_MODEL_ID]);
      }
    }
    hide Moved, EnsureModelId;
    var k :| k in u.fields && IsModelId(k, u.fields[k]);
    ChildOfReplace(q, u, Field(k), MAX_DEPTH);
    LeafReplaced(q, Field(k), u.fields[k], MAX_DEPTH - 1);
    hide ReplaceAll, ReplaceStep;
    assert HoldsRequested(q, Rewrite(q, v), k);
  }

  predicate IsFolderText(v: Json, path: seq<Step>) {
    && path != [] && Last(path).Field? && Last(path).key in FOLDER_PATH_KEYS
    && At(v, path).Some? && At(v, path).value.Text?
  }

  /** The folder is put at the top level just when it is requested and there is no folder text at any depth. */
  lemma {:induction false} FolderTextIsFound(v: Json, path: seq<Step>)
    requires IsFolderText(v, path)
    ensures HasFolderText(v)
    decreases |path|
  {
    hide FOLDER_PATH_KEYS;
    if |path| > 1 {
      var child := Child(v, path[0]).value;
      assert Last(path[1..]) == Last(path);
      FolderTextIsFound(child, path[1..]);
    } else {
      assert path[1..] == [] && At(v, path) == Child(v, path[0]);
      assert path[0].key in v.fields;
    }
  }

  lemma {:induction false} FoundFolderText(v: Json) returns (path: seq<Step>)
    requires HasFolderText(v)
    ensures IsFolderText(v, path)
    decreases v
  {
    hide FOLDER_PATH_KEYS;
    match v
    case List(items) =>
      var i :| 0 <= i < |items| && HasFolderText(items[i]);
      var rest := FoundFolderText(items[i]);
      path := [Index(i)] + rest;
      assert path[1..] == rest && Last(path) == Last(rest);
    case Object(fields) =>
      var k :| k in fields && ((k in FOLDER_PATH_KEYS && fields[k].Text?) || HasFolderText(fields[k]));
      if k in FOLDER_PATH_KEYS && fields[k].Text? {
        path := [Field(k)];
        assert At(v, path) == At(fields[k], path[1..]);
      } else {
        var rest := FoundFolderText(fields[k]);
        path := [Field(k)] + rest;
        assert path[1..] == rest && Last(path) == Last(rest);
      }
  }
}

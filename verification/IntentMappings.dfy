/** Topic and query-view mappings of a safe-copy destination. */
module IntentMappings {
  import opened Options
  import opened Json
  import opened IntentValues

  const MAX_MATRIX_CELLS: nat := 1000

  datatype Action = MapExisting | CopySource

  datatype Mapping = Mapping(source: string, action: Action, target: string)

  /** The names of the fields that hold the two names of a mapping. */
  datatype Keys = Keys(source: string, target: string)

  const TOPICS := Keys("sourceTopicName", "targetTopicName")
  const QUERY_VIEWS := Keys("sourceQueryViewName", "targetQueryViewName")

  predicate Usable(keys: Keys) {
    keys == TOPICS || keys == QUERY_VIEWS
  }

  /** A value printed as text; a falsy one prints as nothing. */
  function Show(rules: Rules, v: Option<Json>): string {
    if Falsy(v) then "" else if v.value.Text? then v.value.text else rules.show(v.value)
  }

  function ParseMapping(rules: Rules, keys: Keys, v: Json): Mapping {
    Mapping(Show(rules, Get(v, keys.source)),
            if Get(v, "action") == Some(Text("map_existing")) then MapExisting else CopySource,
            if !Falsy(Get(v, keys.target)) then Show(rules, Get(v, keys.target)) else Show(rules, Get(v, keys.source)))
  }

  function ActionJson(action: Action): Json {
    Text(if action.MapExisting? then "map_existing" else "copy_source")
  }

  function MappingJson(keys: Keys, m: Mapping): Json {
    Object(map[keys.source := Text(m.source), "action" := ActionJson(m.action), keys.target := Text(m.target)])
  }

  /** Only a mapping without a target name reads its source name instead. */
  predicate Settled(m: Mapping) {
    m.target == "" ==> m.source == ""
  }

  lemma MappingAgain(rules: Rules, keys: Keys, m: Mapping)
    requires Usable(keys)
    ensures ParseMapping(rules, keys, MappingJson(keys, m)) == (if m.target == "" then m.(target := m.source) else m)
    ensures ParseMapping(rules, keys, MappingJson(keys, m)) == m <==> Settled(m)
  {}

  /** A parsed mapping is settled unless its target name is a value that is not falsy and yet prints as nothing,
      such as an empty list. */
  lemma WhenSettled(rules: Rules, keys: Keys, v: Json)
    ensures Settled(ParseMapping(rules, keys, v))
            <==> (!Falsy(Get(v, keys.target)) && Show(rules, Get(v, keys.target)) == "" ==> Show(rules, Get(v, keys.source)) == "")
  {}

  /** An empty list prints as nothing, and is no settled target name. */
  lemma EmptyListIsNotSettled(rules: Rules, name: string)
    requires rules.show(List([])) == "" && name != ""
    ensures !Settled(ParseMapping(rules, TOPICS, Object(map["sourceTopicName" := Text(name), "targetTopicName" := List([])])))
  {}

  // ---------- lists ----------

  /** What a content-only request asks of one mapping. */
  function CheckMapping(rules: Rules, keys: Keys, v: Json): Result<string> {
    var _ :- Need(v.Object?, InvalidDestination);
    var _ :- Need(OnlyKeys(v, {keys.source, keys.target, "action"}), UnknownField);
    var source :- Identifier(Get(v, keys.source), InvalidDestination);
    var _ :- Identifier(Get(v, keys.target), InvalidDestination);
    var action := match Get(v, "action") { case None => "undefined" case Some(a) => if a.Text? then a.text else rules.show(a) };
    var _ :- Need(action == "map_existing" || action == "copy_source", InvalidDestination);
    Ok(source)
  }

  /** The trimmed source names of the mappings, or the first error; no source name may come twice. */
  function CheckEach(rules: Rules, keys: Keys, items: seq<Json>): Result<set<string>> {
    if items == [] then Ok({})
    else
      var sources :- CheckEach(rules, keys, items[..|items| - 1]);
      var source :- CheckMapping(rules, keys, items[|items| - 1]);
      var _ :- Need(source !in sources, InvalidDestination);
      Ok(sources + {source})
  }

  function CheckMappings(rules: Rules, keys: Keys, v: Option<Json>): Result<bool> {
    if v.None? then Ok(true)
    else
      var _ :- Need(v.value.List? && |v.value.items| <= MAX_MATRIX_CELLS, InvalidDestination);
      var _ :- CheckEach(rules, keys, v.value.items);
      Ok(true)
  }

  method CheckMappingList(rules: Rules, keys: Keys, items: seq<Json>) returns (r: Result<set<string>>)
    ensures r == CheckEach(rules, keys, items)
  {
    var sources: set<string> := {};
    for i := 0 to |items|
      invariant CheckEach(rules, keys, items[..i]) == Ok(sources)
    {
      assert items[..i + 1][..i] == items[..i];
      var source := CheckMapping(rules, keys, items[i]);
      if source.Err? || source.value in sources {
        FailsOnceFailed(rules, keys, items, i + 1);
        return if source.Err? then Err(source.code) else Err(InvalidDestination);
      }
      sources := sources + {source.value};
    }
    assert items[..|items|] == items;
    return Ok(sources);
  }

  lemma {:induction false} FailsOnceFailed(rules: Rules, keys: Keys, items: seq<Json>, i: nat)
    requires i <= |items| && CheckEach(rules, keys, items[..i]).Err?
    ensures CheckEach(rules, keys, items) == CheckEach(rules, keys, items[..i])
    decreases |items| - i
  {
    if i < |items| {
      assert items[..i + 1][..i] == items[..i];
      FailsOnceFailed(rules, keys, items, i + 1);
    } else {
      assert items[..i] == items;
    }
  }

  function ParseEach(rules: Rules, keys: Keys, items: seq<Json>): (ms: seq<Mapping>)
    ensures |ms| == |items| && forall i :: 0 <= i < |items| ==> ms[i] == ParseMapping(rules, keys, items[i])
  {
    seq(|items|, i requires 0 <= i < |items| => ParseMapping(rules, keys, items[i]))
  }

  /** An absent or empty list, and a value that is no list, count as no mappings. */
  function ParseMappings(rules: Rules, keys: Keys, v: Option<Json>): Result<Option<seq<Mapping>>> {
    if v.None? || !v.value.List? || v.value.items == [] then Ok(None)
    else
      var _ :- Need(forall i :: 0 <= i < |v.value.items| ==> v.value.items[i].Object?, InvalidDestination);
      Ok(Some(ParseEach(rules, keys, v.value.items)))
  }

  function WriteEach(keys: Keys, ms: seq<Mapping>): (items: seq<Json>)
    ensures |items| == |ms| && forall i :: 0 <= i < |ms| ==> items[i] == MappingJson(keys, ms[i])
  {
    seq(|ms|, i requires 0 <= i < |ms| => MappingJson(keys, ms[i]))
  }

  function MappingsJson(keys: Keys, ms: seq<Mapping>): Json {
    List(WriteEach(keys, ms))
  }

  predicate AllSettled(ms: Option<seq<Mapping>>) {
    ms.Some? ==> forall i :: 0 <= i < |ms.value| ==> Settled(ms.value[i])
  }

  lemma MappingsAgain(rules: Rules, keys: Keys, v: Option<Json>)
    requires Usable(keys) && ParseMappings(rules, keys, v).Ok? && ParseMappings(rules, keys, v).value.Some?
    ensures var ms := ParseMappings(rules, keys, v).value.value;
            var again := ParseMappings(rules, keys, Some(MappingsJson(keys, ms)));
            && again.Ok? && again.value.Some? && |again.value.value| == |ms|
            && (again.value == Some(ms) <==> AllSettled(Some(ms)))
  {
    var ms := ParseMappings(rules, keys, v).value.value;
    var again := ParseMappings(rules, keys, Some(MappingsJson(keys, ms))).value.value;
    forall i | 0 <= i < |ms|
      ensures again[i] == ms[i] <==> Settled(ms[i])
    {
      MappingAgain(rules, keys, ms[i]);
    }
    if AllSettled(Some(ms)) {
      assert again == ms;
    }
  }

  /** A checked mapping is settled, and passes the check again with the same source name. */
  lemma CheckedMappingAgain(rules: Rules, keys: Keys, v: Json)
    requires Usable(keys) && CheckMapping(rules, keys, v).Ok?
    ensures var m := ParseMapping(rules, keys, v);
            Settled(m) && CheckMapping(rules, keys, MappingJson(keys, m)) == CheckMapping(rules, keys, v)
  {
    var m := ParseMapping(rules, keys, v);
    NamesOfChecked(rules, keys, v);
    MappingFields(keys, m);
    hide MappingJson, Bounded;
  }

  lemma NamesOfChecked(rules: Rules, keys: Keys, v: Json)
    requires CheckMapping(rules, keys, v).Ok?
    ensures var m := ParseMapping(rules, keys, v);
            Get(v, keys.source) == Some(Text(m.source)) && Get(v, keys.target) == Some(Text(m.target)) && m.target != ""
  {
    hide OnlyKeys;
  }

  lemma MappingFields(keys: Keys, m: Mapping)
    requires Usable(keys)
    ensures var v := MappingJson(keys, m);
            && OnlyKeys(v, {keys.source, keys.target, "action"})
            && Get(v, keys.source) == Some(Text(m.source)) && Get(v, keys.target) == Some(Text(m.target))
            && Get(v, "action") == Some(ActionJson(m.action))
  {}

  lemma {:induction false} CheckedEachAgain(rules: Rules, keys: Keys, items: seq<Json>)
    requires Usable(keys) && CheckEach(rules, keys, items).Ok?
    ensures CheckEach(rules, keys, WriteEach(keys, ParseEach(rules, keys, items))) == CheckEach(rules, keys, items)
  {
    if items != [] {
      var n := |items| - 1;
      var again := WriteEach(keys, ParseEach(rules, keys, items));
      CheckedEachAgain(rules, keys, items[..n]);
      CheckedMappingAgain(rules, keys, items[n]);
      hide CheckMapping, ParseMapping, MappingJson, Settled;
      assert again[..n] == WriteEach(keys, ParseEach(rules, keys, items[..n]));
      assert again[n] == MappingJson(keys, ParseMapping(rules, keys, items[n]));
    }
  }

  lemma {:induction false} EachIsChecked(rules: Rules, keys: Keys, items: seq<Json>, i: nat)
    requires CheckEach(rules, keys, items).Ok? && i < |items|
    ensures CheckMapping(rules, keys, items[i]).Ok?
  {
    hide CheckMapping;
    if i < |items| - 1 {
      EachIsChecked(rules, keys, items[..|items| - 1], i);
    }
  }

  /** Checked mappings are read back as they are. */
  lemma CheckedMappingsAgain(rules: Rules, keys: Keys, v: Option<Json>)
    requires Usable(keys) && CheckMappings(rules, keys, v).Ok? && ParseMappings(rules, keys, v).Ok?
    ensures AllSettled(ParseMappings(rules, keys, v).value)
    ensures ParseMappings(rules, keys, v).value.Some? ==>
              CheckMappings(rules, keys, Some(MappingsJson(keys, ParseMappings(rules, keys, v).value.value))).Ok?
  {
    if ParseMappings(rules, keys, v).value.Some? {
      CheckedEachAgain(rules, keys, v.value.items);
      var ms := ParseEach(rules, keys, v.value.items);
      forall i | 0 <= i < |ms|
        ensures Settled(ms[i])
      {
        EachIsChecked(rules, keys, v.value.items, i);
        CheckedMappingAgain(rules, keys, v.value.items[i]);
      }
    }
  }
}

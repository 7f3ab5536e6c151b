/** For which request bodies parsing is idempotent, told by what the bodies say. */
module IntentSettling {
  import opened Options
  import opened Json
  import opened TextOrder
  import opened RequestIdentity
  import opened IntentValues
  import opened IntentMappings
  import opened IntentDestination
  import opened IntentSource
  import opened IntentDestinations
  import opened IntentEvidence
  import opened Intent

  /** A target name that is not falsy prints as something, unless the source name prints as nothing as well. */
  predicate NamesTarget(rules: Rules, keys: Keys, v: Json) {
    !Falsy(Get(v, keys.target)) && Show(rules, Get(v, keys.target)) == "" ==> Show(rules, Get(v, keys.source)) == ""
  }

  predicate NamesTargets(rules: Rules, keys: Keys, v: Option<Json>) {
    v.Some? && v.value.List? ==> forall m :: m in v.value.items ==> NamesTarget(rules, keys, m)
  }

  predicate ItemNamesTargets(rules: Rules, item: Json) {
    NamesTargets(rules, TOPICS, Get(item, TOPIC_MAPPINGS)) && NamesTargets(rules, QUERY_VIEWS, Get(item, QUERY_VIEW_MAPPINGS))
  }

  /** Every mapping of every destination in the body names its target. */
  predicate BodyNamesTargets(rules: Rules, v: Json) {
    var list := Get(v, DESTINATIONS);
    list.Some? && list.value.List? ==> forall item :: item in list.value.items ==> ItemNamesTargets(rules, item)
  }

  lemma ListIsSettled(rules: Rules, keys: Keys, v: Option<Json>)
    requires ParseMappings(rules, keys, v).Ok?
    ensures AllSettled(ParseMappings(rules, keys, v).value) <==> NamesTargets(rules, keys, v)
  {
    if ParseMappings(rules, keys, v).value.Some? {
      var items := v.value.items;
      var ms := ParseEach(rules, keys, items);
      forall i | 0 <= i < |items|
        ensures items[i] in items && (Settled(ms[i]) <==> NamesTarget(rules, keys, items[i]))
      {
        WhenSettled(rules, keys, items[i]);
      }
      hide NamesTarget, Settled, ParseMapping;
    }
  }

  lemma ItemIsSettled(rules: Rules, item: Json, contentOnly: bool)
    requires ParseDestination(rules, item, contentOnly).Ok?
    ensures SettledReferences(ParseDestination(rules, item, contentOnly).value.references) <==> ItemNamesTargets(rules, item)
  {
    hide ParseTarget, ParsePlacement, CheckMappings, ParseMappings, NamesTargets, AllSettled, Get, OnlyKeys;
    ListIsSettled(rules, TOPICS, Get(item, TOPIC_MAPPINGS));
    ListIsSettled(rules, QUERY_VIEWS, Get(item, QUERY_VIEW_MAPPINGS));
  }

  lemma ArrangedHasAll(m: map<string, Destination>, keys: seq<string>, id: string)
    requires (forall k :: k in keys ==> k in m) && id in keys
    ensures m[id] in Arrange(m, keys)
  {
    SortedIsIncreasing(keys);
    var i :| 0 <= i < |Sorted(keys)| && Sorted(keys)[i] == id;
    assert Arrange(m, keys)[i] == m[id];
  }

  /** What each item parses to is in the list. */
  lemma ItemIsListed(rules: Rules, v: Option<Json>, contentOnly: bool, item: Json) returns (k: nat)
    requires ParseDestinations(rules, v, contentOnly).Ok? && item in v.value.items
    ensures k < |ParseDestinations(rules, v, contentOnly).value|
    ensures Parses(rules, contentOnly, item, ParseDestinations(rules, v, contentOnly).value[k])
  {
    hide Gather, Parses, DistinctScopes;
    var items := v.value.items;
    var g := Gather(rules, items, contentOnly).value;
    GatheredHolds(rules, items, contentOnly);
    assert Placed(rules, contentOnly, g.byTarget, item);
    var d :| Parses(rules, contentOnly, item, d) && d.target.targetId in g.byTarget && g.byTarget[d.target.targetId] == d;
    ArrangedHasAll(g.byTarget, g.keys, d.target.targetId);
    var ds := Arrange(g.byTarget, g.keys);
    k :| 0 <= k < |ds| && ds[k] == d;
  }

  /** What is in the list is what some item parses to. */
  lemma ListedIsItem(rules: Rules, v: Option<Json>, contentOnly: bool, k: nat) returns (item: Json)
    requires ParseDestinations(rules, v, contentOnly).Ok? && k < |ParseDestinations(rules, v, contentOnly).value|
    ensures item in v.value.items && Parses(rules, contentOnly, item, ParseDestinations(rules, v, contentOnly).value[k])
  {
    hide Gather, Parses, DistinctScopes;
    var items := v.value.items;
    var g := Gather(rules, items, contentOnly).value;
    GatheredHolds(rules, items, contentOnly);
    var id := Sorted(g.keys)[k];
    assert id in g.byTarget && Arrange(g.byTarget, g.keys)[k] == g.byTarget[id];
    assert Backed(rules, contentOnly, items, g.byTarget, id);
    item :| item in items && Parses(rules, contentOnly, item, g.byTarget[id]);
  }

  lemma ListedAreSettled(rules: Rules, v: Option<Json>, contentOnly: bool)
    requires ParseDestinations(rules, v, contentOnly).Ok?
    ensures SettledList(ParseDestinations(rules, v, contentOnly).value) <==> forall item :: item in v.value.items ==> ItemNamesTargets(rules, item)
  {
    var ds := ParseDestinations(rules, v, contentOnly).value;
    hide ParseDestinations, ParseDestination, SettledReferences, ItemNamesTargets;
    if SettledList(ds) {
      forall item | item in v.value.items
        ensures ItemNamesTargets(rules, item)
      {
        var k := ItemIsListed(rules, v, contentOnly, item);
        ItemIsSettled(rules, item, contentOnly);
      }
    }
    if forall item :: item in v.value.items ==> ItemNamesTargets(rules, item) {
      forall k | 0 <= k < |ds|
        ensures SettledReferences(ds[k].references)
      {
        var item := ListedIsItem(rules, v, contentOnly, k);
        ItemIsSettled(rules, item, contentOnly);
      }
    }
  }

  lemma IsList(rules: Rules, v: Option<Json>, contentOnly: bool)
    requires ParseDestinations(rules, v, contentOnly).Ok?
    ensures v.Some? && v.value.List?
  {}

  /** A body that parses gives an intent that parses to itself exactly when every mapping in the body names its target;
      the bodies of content-only requests always do. In other requests a target name may be a value that is not falsy and
      prints as nothing, and then the next parse puts the source name in its place. */
  lemma ParsingIsIdempotentIffTargetsNamed(rules: Rules, v: Json, plan: bool)
    requires ParseIntent(rules, v, plan).Ok?
    ensures var i := ParseIntent(rules, v, plan).value;
            && (Fixed(rules, plan, i) <==> BodyNamesTargets(rules, v))
            && (ContentOnly(plan, i) ==> BodyNamesTargets(rules, v))
  {
    var i := ParseIntent(rules, v, plan).value;
    FixedIffSettled(rules, v, plan);
    ParsedFields(rules, v, plan);
    IsList(rules, Get(v, DESTINATIONS), ContentOnly(plan, i));
    ListedAreSettled(rules, Get(v, DESTINATIONS), ContentOnly(plan, i));
    hide ParseIntent, ParseDestinations, Fixed, SettledReferences, ItemNamesTargets, ContentOnly, Get;
  }

  // ---------- a body that is not read back ----------

  /** One letter, or any other character that is neither space nor control, is an identifier. */
  lemma OneCharacter(c: char, code: Code)
    requires !IsSpace(c) && c as int >= 32 && c as int != 127
    ensures Identifier(Some(Text([c])), code) == Ok([c])
  {
    assert TrimStart([c]) == [c];
  }

  const EMPTY_NAME: Json := Object(map["sourceTopicName" := Text("n"), "targetTopicName" := List([])])

  function ItemField(key: string): Option<Json> {
    if key == TARGET_ID then Some(Text("t"))
    else if key == INSTANCE_ID then Some(Text("i"))
    else if key == CONNECTION_ID then Some(Text("c"))
    else if key == MODEL_ID then Some(Text("m"))
    else if key == TOPIC_MAPPINGS then Some(List([EMPTY_NAME]))
    else None
  }

  const EMPTY_NAME_ITEM: Json := Record(DESTINATION_KEYS, key => ItemField(key))

  const REQUEST: string := "00000000-0000-4000-8000-000000000000"

  function BodyField(key: string): Option<Json> {
    if key == PROFILE then Some(Text(PROFILE_NAME))
    else if key == REQUEST_ID then Some(Text(REQUEST))
    else if key == SOURCE then Some(SourceJson(Source("i", "c", ["d"])))
    else if key == DESTINATIONS then Some(List([EMPTY_NAME_ITEM]))
    else None
  }

  /** A whole request whose one destination maps a topic to a target name that is an empty list. */
  const EMPTY_NAME_BODY: Json := Record(BODY_KEYS, key => BodyField(key))

  lemma ItemFields()
    ensures var v := EMPTY_NAME_ITEM;
            && OnlyKeys(v, DESTINATION_KEYS)
            && Get(v, TARGET_ID) == Some(Text("t")) && Get(v, INSTANCE_ID) == Some(Text("i"))
            && Get(v, CONNECTION_ID) == Some(Text("c")) && Get(v, MODEL_ID) == Some(Text("m"))
            && Get(v, TOPIC_MAPPINGS) == Some(List([EMPTY_NAME])) && Get(v, QUERY_VIEW_MAPPINGS).None?
            && Get(v, FOLDER_ID).None? && Get(v, FOLDER_PATH).None? && Get(v, BINDING_MAPPINGS).None? && Get(v, WORKBOOK_COPY).None?
  {}

  /** An item that names its target and has topic mappings at most. */
  lemma PlainItemParses(rules: Rules, v: Json, topics: seq<Json>) returns (d: Destination)
    requires OnlyKeys(v, DESTINATION_KEYS) && ParseTarget(v).Ok?
    requires Get(v, TOPIC_MAPPINGS) == Some(List(topics)) && Get(v, QUERY_VIEW_MAPPINGS).None? && forall m :: m in topics ==> m.Object?
    requires Get(v, FOLDER_ID).None? && Get(v, FOLDER_PATH).None? && Get(v, BINDING_MAPPINGS).None? && Get(v, WORKBOOK_COPY).None?
    ensures ParseDestination(rules, v, false) == Ok(d)
    ensures d.placement.bindings.None?
  {
    hide Get, OnlyKeys, ParseTarget;
    d := ParseDestination(rules, v, false).value;
  }

  lemma TargetParses()
    ensures ParseTarget(EMPTY_NAME_ITEM).Ok?
  {
    ItemFields();
    OneCharacter('t', InvalidDestination);
    OneCharacter('i', InvalidDestination);
    OneCharacter('c', InvalidDestination);
    OneCharacter('m', InvalidDestination);
    hide Bounded, Get, OnlyKeys;
  }

  lemma ItemParses(rules: Rules) returns (d: Destination)
    ensures ParseDestination(rules, EMPTY_NAME_ITEM, false) == Ok(d)
    ensures d.placement.bindings.None?
  {
    assert EMPTY_NAME.Object?;
    hide *;
    ItemFields();
    TargetParses();
    d := PlainItemParses(rules, EMPTY_NAME_ITEM, [EMPTY_NAME]);
  }

  lemma RequestIsUuid()
    ensures IsUuid(REQUEST)
  {}

  lemma SourceParses()
    ensures ParseSource(Some(SourceJson(Source("i", "c", ["d"])))) == Ok(Source("i", "c", ["d"]))
  {
    OneCharacter('d', InvalidSource);
    OneCharacter('i', InvalidSource);
    OneCharacter('c', InvalidSource);
    hide Bounded;
    CanonicalSourceReads(Source("i", "c", ["d"]));
  }

  lemma ListParses(rules: Rules, item: Json, d: Destination)
    requires ParseDestination(rules, item, false) == Ok(d)
    ensures ParseDestinations(rules, Some(List([item])), false) == Ok([d])
  {
    hide ParseDestination;
    OrderedRead(rules, [item], [d], false);
  }

  lemma BodyFields()
    ensures var v := EMPTY_NAME_BODY;
            && OnlyKeys(v, BODY_KEYS)
            && Get(v, PROFILE) == Some(Text(PROFILE_NAME)) && Get(v, REQUEST_ID) == Some(Text(REQUEST))
            && Get(v, SOURCE) == Some(SourceJson(Source("i", "c", ["d"]))) && Get(v, DESTINATIONS) == Some(List([EMPTY_NAME_ITEM]))
            && Get(v, OPTIONS).None? && Get(v, DEPLOYMENT).None?
  {}

  /** It parses, and what it parses to parses to something else. */
  lemma EmptyNameIsNotReadBack(rules: Rules)
    requires rules.show(List([])) == ""
    ensures ParseIntent(rules, EMPTY_NAME_BODY, false).Ok?
    ensures !Fixed(rules, false, ParseIntent(rules, EMPTY_NAME_BODY, false).value)
  {
    EmptyNameParses(rules);
    EmptyNameNamesNothing(rules);
    hide *;
    ParsingIsIdempotentIffTargetsNamed(rules, EMPTY_NAME_BODY, false);
  }

  lemma EmptyNameParses(rules: Rules)
    ensures ParseIntent(rules, EMPTY_NAME_BODY, false).Ok?
  {
    hide *;
    var d := ItemParses(rules);
    BodyFields();
    SourceParses();
    RequestIsUuid();
    UuidIsRequestId(REQUEST);
    ListParses(rules, EMPTY_NAME_ITEM, d);
    PlainBodyParses(rules, EMPTY_NAME_BODY, REQUEST, Source("i", "c", ["d"]), d);
  }

  /** A body without evidence and options that asks for one copy. */
  lemma PlainBodyParses(rules: Rules, v: Json, id: string, source: Source, d: Destination)
    requires OnlyKeys(v, BODY_KEYS) && Get(v, PROFILE) == Some(Text(PROFILE_NAME)) && Get(v, OPTIONS).None? && Get(v, DEPLOYMENT).None?
    requires ParseRequestId(Get(v, REQUEST_ID)) == Ok(id) && ParseSource(Get(v, SOURCE)) == Ok(source)
    requires ParseDestinations(rules, Get(v, DESTINATIONS), false) == Ok([d])
    requires |source.documentIds| == 1 && d.placement.bindings.None?
    ensures ParseIntent(rules, v, false).Ok?
  {
    hide OnlyKeys, Get, ParseRequestId, ParseSource, ParseDestinations;
  }

  lemma EmptyNameNamesNothing(rules: Rules)
    requires rules.show(List([])) == ""
    ensures !BodyNamesTargets(rules, EMPTY_NAME_BODY)
  {
    assert Get(EMPTY_NAME_BODY, DESTINATIONS) == Some(List([EMPTY_NAME_ITEM]));
    assert EMPTY_NAME_ITEM in [EMPTY_NAME_ITEM];
    assert Get(EMPTY_NAME_ITEM, TOPIC_MAPPINGS) == Some(List([EMPTY_NAME]));
    assert EMPTY_NAME in [EMPTY_NAME];
    assert !NamesTarget(rules, TOPICS, EMPTY_NAME);
  }
}

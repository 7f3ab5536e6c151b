/** Safe-copy requests: the validating parser whose result is the identity of a request, and its narrowing to some targets. */
module Intent {
  import opened Options
  import opened Json
  import opened TextOrder
  import opened RequestIdentity
  import opened IntentValues
  import opened IntentMappings
  import opened IntentDestination
  import opened IntentSource
  import opened IntentDestinations
  import opened IntentEvidence

  const PROFILE_NAME: string := "safe_copy_v1"

  datatype CopyOptions = CopyOptions(emptyFirst: bool, deleteSourceOnSuccess: bool, refreshSchemaOnComplete: bool)

  datatype Intent = Intent(requestId: string, source: Source, destinations: seq<Destination>, deployment: Option<Deployment>, options: Option<CopyOptions>)

  const PROFILE: string := "profile"
  const REQUEST_ID: string := "requestId"
  const SOURCE: string := "source"
  const DESTINATIONS: string := "destinations"
  const OPTIONS: string := "options"
  const DEPLOYMENT: string := "deployment"
  const BODY_KEYS: set<string> := {PROFILE, REQUEST_ID, SOURCE, DESTINATIONS, OPTIONS, DEPLOYMENT}

  const EMPTY_FIRST: string := "emptyFirst"
  const DELETE_SOURCE: string := "deleteSourceOnSuccess"
  const REFRESH_SCHEMA: string := "refreshSchemaOnComplete"
  const OPTION_KEYS: set<string> := {EMPTY_FIRST, DELETE_SOURCE, REFRESH_SCHEMA}

  // ---------- the parts of a body ----------

  function ParseRequestId(v: Option<Json>): Result<string> {
    var text :- Identifier(v, InvalidRequestId);
    var _ :- Need(IsUuid(Lower(text)), InvalidRequestId);
    Ok(Lower(text))
  }

  function ScopeFor(source: Source, ds: seq<Destination>): Scope {
    Scope(set x | x in source.documentIds, set d | d in ds :: d.target.targetId, exists d :: d in ds && d.placement.stagingFolderId.Some?)
  }

  function ParseEvidence(rules: Rules, source: Source, ds: seq<Destination>, v: Option<Json>): Result<Option<Deployment>> {
    if v.None? then Ok(None)
    else
      var deployment :- ParseDeployment(rules, ScopeFor(source, ds), v.value);
      Ok(Some(deployment))
  }

  /** Choices of database and schema need an approved package, except while a plan is made. */
  predicate BindingsApproved(plan: bool, ds: seq<Destination>, deployment: Option<Deployment>) {
    !plan && (exists d :: d in ds && d.placement.bindings.Some? && d.placement.bindings.value != [])
    ==> deployment.Some? && deployment.value.fingerprints.Some?
  }

  predicate OptionsAllowed(contentOnly: bool, v: Option<Json>) {
    contentOnly && v.Some? ==>
      v.value.Object? && forall k :: k in v.value.fields ==> k in OPTION_KEYS && v.value.fields[k] == Bool(false)
  }

  function ReadOptions(contentOnly: bool, v: Option<Json>): Option<CopyOptions> {
    if contentOnly || v.None? || !v.value.Object? then None
    else Some(CopyOptions(Get(v.value, EMPTY_FIRST) == Some(Bool(true)), Get(v.value, DELETE_SOURCE) == Some(Bool(true)),
                          Get(v.value, REFRESH_SCHEMA) == Some(Bool(true))))
  }

  /** `plan` tells that a plan is made, before there is evidence to approve. */
  function ParseIntent(rules: Rules, v: Json, plan: bool): Result<Intent> {
    var _ :- Need(v.Object?, InvalidBody);
    var _ :- Need(OnlyKeys(v, BODY_KEYS), UnknownField);
    var _ :- Need(Get(v, PROFILE) == Some(Text(PROFILE_NAME)), InvalidProfile);
    var requestId :- ParseRequestId(Get(v, REQUEST_ID));
    var source :- ParseSource(Get(v, SOURCE));
    var contentOnly := plan || Get(v, DEPLOYMENT).Some?;
    var destinations :- ParseDestinations(rules, Get(v, DESTINATIONS), contentOnly);
    var deployment :- ParseEvidence(rules, source, destinations, Get(v, DEPLOYMENT));
    var _ :- Need(BindingsApproved(plan, destinations, deployment), InvalidDeployment);
    var _ :- Need(OptionsAllowed(contentOnly, Get(v, OPTIONS)), UnsupportedOptions);
    var _ :- Need(|source.documentIds| * |destinations| <= MAX_MATRIX_CELLS, LimitExceeded);
    Ok(Intent(requestId, source, destinations, deployment, ReadOptions(contentOnly, Get(v, OPTIONS))))
  }

  // ---------- writing ----------

  function OptionField(o: CopyOptions, key: string): Option<Json> {
    if (key == EMPTY_FIRST && o.emptyFirst) || (key == DELETE_SOURCE && o.deleteSourceOnSuccess)
       || (key == REFRESH_SCHEMA && o.refreshSchemaOnComplete)
    then Some(Bool(true)) else None
  }

  function OptionsJson(options: Option<CopyOptions>): Option<Json> {
    if options.None? then None else Some(Record(OPTION_KEYS, key => OptionField(options.value, key)))
  }

  function EvidenceJson(deployment: Option<Deployment>): Option<Json> {
    if deployment.None? then None else Some(DeploymentJson(deployment.value))
  }

  function IntentField(i: Intent, key: string): Option<Json> {
    if key == PROFILE then Some(Text(PROFILE_NAME))
    else if key == REQUEST_ID then Some(Text(i.requestId))
    else if key == SOURCE then Some(SourceJson(i.source))
    else if key == DESTINATIONS then Some(List(DestinationList(i.destinations)))
    else if key == OPTIONS then OptionsJson(i.options)
    else if key == DEPLOYMENT then EvidenceJson(i.deployment)
    else None
  }

  function IntentJson(i: Intent): Json {
    Record(BODY_KEYS, key => IntentField(i, key))
  }

  lemma IntentFields(i: Intent)
    ensures var v := IntentJson(i);
            && OnlyKeys(v, BODY_KEYS)
            && Get(v, PROFILE) == Some(Text(PROFILE_NAME)) && Get(v, REQUEST_ID) == Some(Text(i.requestId))
            && Get(v, SOURCE) == Some(SourceJson(i.source)) && Get(v, DESTINATIONS) == Some(List(DestinationList(i.destinations)))
            && Get(v, OPTIONS) == OptionsJson(i.options) && Get(v, DEPLOYMENT) == EvidenceJson(i.deployment)
  {}

  // ---------- canonical intents ----------

  predicate ContentOnly(plan: bool, i: Intent) {
    plan || i.deployment.Some?
  }

  /** What an intent is that the parser leaves as it is. */
  predicate CanonicalIntent(rules: Rules, plan: bool, i: Intent) {
    && ParseRequestId(Some(Text(i.requestId))) == Ok(i.requestId)
    && CanonicalSource(i.source)
    && CanonicalDestinations(rules, i.destinations, ContentOnly(plan, i))
    && ParseEvidence(rules, i.source, i.destinations, EvidenceJson(i.deployment)) == Ok(i.deployment)
    && BindingsApproved(plan, i.destinations, i.deployment)
    && (ContentOnly(plan, i) ==> i.options.None?)
    && |i.source.documentIds| * |i.destinations| <= MAX_MATRIX_CELLS
  }

  predicate Fixed(rules: Rules, plan: bool, i: Intent) {
    ParseIntent(rules, IntentJson(i), plan) == Ok(i)
  }

  lemma OptionsAgain(i: Intent, plan: bool)
    requires ContentOnly(plan, i) ==> i.options.None?
    ensures OptionsAllowed(ContentOnly(plan, i), OptionsJson(i.options))
    ensures ReadOptions(ContentOnly(plan, i), OptionsJson(i.options)) == i.options
  {}

  lemma CanonicalIsFixed(rules: Rules, plan: bool, i: Intent)
    requires CanonicalIntent(rules, plan, i)
    ensures Fixed(rules, plan, i)
  {
    hide OnlyKeys, Get, ParseRequestId, ParseSource, ParseDestinations, ParseEvidence, BindingsApproved, OptionsAllowed, ReadOptions,
         CanonicalSource, CanonicalDestinations, SourceJson, DestinationList, OptionsJson, IntentJson, EvidenceJson;
    IntentFields(i);
    CanonicalSourceReads(i.source);
    OptionsAgain(i, plan);
    CanonicalListReads(rules, i.destinations, ContentOnly(plan, i));
    EvidenceIsThere(i);
  }

  lemma EvidenceIsThere(i: Intent)
    ensures EvidenceJson(i.deployment).Some? <==> i.deployment.Some?
  {}

  lemma CanonicalListReads(rules: Rules, ds: seq<Destination>, contentOnly: bool)
    requires CanonicalDestinations(rules, ds, contentOnly)
    ensures ParseDestinations(rules, Some(List(DestinationList(ds))), contentOnly) == Ok(ds)
  {
    hide ParseDestination, DestinationJson, Ordered, ParseDestinations;
    forall i | 0 <= i < |ds|
      ensures ParseDestination(rules, DestinationJson(ds[i]), contentOnly) == Ok(ds[i])
    {
      assert ReadsBack(rules, ds[i], contentOnly);
    }
    ListReadsBack(rules, ds, contentOnly);
  }

  // ---------- parsing again ----------

  lemma UuidIsRequestId(id: string)
    requires IsUuid(id)
    ensures ParseRequestId(Some(Text(id))) == Ok(id)
  {
    UuidIsPlain(id);
    forall i | 0 <= i < |id|
      ensures !(id[i] as int < 32 || id[i] as int == 127)
    {
      assert id[i] == '-' || IsHex(id[i]);
    }
    hide Trim, Lower, IsUuid;
  }

  lemma RequestIdAgain(v: Option<Json>)
    requires ParseRequestId(v).Ok?
    ensures ParseRequestId(Some(Text(ParseRequestId(v).value))) == ParseRequestId(v)
  {
    UuidIsRequestId(ParseRequestId(v).value);
    hide Bounded, Lower, IsUuid;
  }

  lemma EvidenceAgain(rules: Rules, source: Source, ds: seq<Destination>, v: Option<Json>)
    requires ParseEvidence(rules, source, ds, v).Ok?
    ensures ParseEvidence(rules, source, ds, EvidenceJson(ParseEvidence(rules, source, ds, v).value)) == ParseEvidence(rules, source, ds, v)
  {
    hide ParseDeployment, DeploymentJson;
    if v.Some? {
      DeploymentAgain(rules, ScopeFor(source, ds), v.value);
    }
  }

  /** What each part of a parsed intent was parsed from. */
  lemma ParsedFields(rules: Rules, v: Json, plan: bool)
    requires ParseIntent(rules, v, plan).Ok?
    ensures var i := ParseIntent(rules, v, plan).value;
            && ParseRequestId(Get(v, REQUEST_ID)) == Ok(i.requestId)
            && ParseSource(Get(v, SOURCE)) == Ok(i.source)
            && ParseDestinations(rules, Get(v, DESTINATIONS), ContentOnly(plan, i)) == Ok(i.destinations)
            && ParseEvidence(rules, i.source, i.destinations, Get(v, DEPLOYMENT)) == Ok(i.deployment)
            && BindingsApproved(plan, i.destinations, i.deployment)
            && (ContentOnly(plan, i) ==> i.options.None?)
            && |i.source.documentIds| * |i.destinations| <= MAX_MATRIX_CELLS
  {
    hide Get, OnlyKeys, ParseRequestId, ParseSource, ParseDestinations, ParseDeployment, BindingsApproved, OptionsAllowed;
  }

  /** All of a parsed intent but its list of destinations is read back unchanged. */
  lemma ParsedParts(rules: Rules, v: Json, plan: bool)
    requires ParseIntent(rules, v, plan).Ok?
    ensures var i := ParseIntent(rules, v, plan).value;
            && ParseRequestId(Some(Text(i.requestId))) == Ok(i.requestId)
            && CanonicalSource(i.source)
            && ParseDestinations(rules, Get(v, DESTINATIONS), ContentOnly(plan, i)) == Ok(i.destinations)
            && ParseEvidence(rules, i.source, i.destinations, EvidenceJson(i.deployment)) == Ok(i.deployment)
            && BindingsApproved(plan, i.destinations, i.deployment)
            && (ContentOnly(plan, i) ==> i.options.None?)
            && |i.source.documentIds| * |i.destinations| <= MAX_MATRIX_CELLS
  {
    var i := ParseIntent(rules, v, plan).value;
    ParsedFields(rules, v, plan);
    RequestIdAgain(Get(v, REQUEST_ID));
    ParsedSourceIsCanonical(Get(v, SOURCE));
    EvidenceAgain(rules, i.source, i.destinations, Get(v, DEPLOYMENT));
    hide *;
  }

  predicate AllReadBack(rules: Rules, ds: seq<Destination>, contentOnly: bool) {
    forall k :: 0 <= k < |ds| ==> ReadsBack(rules, ds[k], contentOnly)
  }

  /** A parsed list is written and read again the same exactly when each of its destinations is. */
  lemma ParsedListAgain(rules: Rules, v: Option<Json>, contentOnly: bool)
    requires ParseDestinations(rules, v, contentOnly).Ok?
    ensures var ds := ParseDestinations(rules, v, contentOnly).value;
            && Ordered(rules, ds, contentOnly)
            && (ParseDestinations(rules, Some(List(DestinationList(ds))), contentOnly) == Ok(ds) <==> AllReadBack(rules, ds, contentOnly))
            && forall k :: 0 <= k < |ds| ==>
                 && (ReadsBack(rules, ds[k], contentOnly) <==> SettledReferences(ds[k].references))
                 && (contentOnly ==> SettledReferences(ds[k].references))
  {
    var ds := ParseDestinations(rules, v, contentOnly).value;
    ParsedDestinations(rules, v, contentOnly);
    hide ParseDestinations, ParseDestination, DestinationJson, Ordered;
    forall k | 0 <= k < |ds|
      ensures var again := ParseDestination(rules, DestinationJson(ds[k]), contentOnly);
              && again.Ok? && again.value.target == ds[k].target && again.value.placement == ds[k].placement
              && (again.value == ds[k] <==> SettledReferences(ds[k].references))
              && (contentOnly ==> SettledReferences(ds[k].references))
    {
      assert IsParsed(rules, contentOnly, ds[k]);
      var item :| Parses(rules, contentOnly, item, ds[k]);
      DestinationAgain(rules, item, contentOnly);
    }
    hide SettledReferences, IsParsed;
    ListReadsBack(rules, ds, contentOnly);
  }

  /** Every mapping of every destination has a target name, or no source name either. */
  predicate SettledList(ds: seq<Destination>) {
    forall k :: 0 <= k < |ds| ==> SettledReferences(ds[k].references)
  }

  /** Parsing leaves a parsed intent alone exactly when its mappings are settled; those of a content-only request are. */
  lemma FixedIffSettled(rules: Rules, v: Json, plan: bool)
    requires ParseIntent(rules, v, plan).Ok?
    ensures var i := ParseIntent(rules, v, plan).value;
            && (Fixed(rules, plan, i) <==> SettledList(i.destinations))
            && (ContentOnly(plan, i) ==> SettledList(i.destinations))
  {
    hide ParseIntent, Get, ParseRequestId, ParseDestinations, ParseEvidence, BindingsApproved, CanonicalSource,
         EvidenceJson, Ordered, ReadsBack, SettledReferences, IntentJson;
    var i := ParseIntent(rules, v, plan).value;
    ParsedParts(rules, v, plan);
    ParsedListAgain(rules, Get(v, DESTINATIONS), ContentOnly(plan, i));
    if SettledList(i.destinations) {
      CanonicalIsFixed(rules, plan, i);
    } else if Fixed(rules, plan, i) {
      FixedParts(rules, plan, i);
    }
  }

  lemma FixedParts(rules: Rules, plan: bool, i: Intent)
    requires Fixed(rules, plan, i)
    ensures ParseDestinations(rules, Some(List(DestinationList(i.destinations))), ContentOnly(plan, i)) == Ok(i.destinations)
  {
    IntentFields(i);
    ParsedParts(rules, IntentJson(i), plan);
  }

  /** The intents that the parser leaves as they are, told by their parts. */
  lemma FixedIffCanonical(rules: Rules, plan: bool, i: Intent)
    ensures Fixed(rules, plan, i) <==> CanonicalIntent(rules, plan, i)
  {
    if CanonicalIntent(rules, plan, i) {
      CanonicalIsFixed(rules, plan, i);
    }
    if Fixed(rules, plan, i) {
      IntentFields(i);
      ParsedParts(rules, IntentJson(i), plan);
      hide Get, ParseRequestId, ParseSource, ParseDestinations, ParseEvidence, BindingsApproved, CanonicalSource, EvidenceJson,
           ReadsBack, IntentJson, OnlyKeys;
      ParsedListAgain(rules, Some(List(DestinationList(i.destinations))), ContentOnly(plan, i));
    }
  }
}

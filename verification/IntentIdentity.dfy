/** The printed identity of a safe-copy request, and what it tells of the request. */
module IntentIdentity {
  import opened Options
  import opened Json
  import opened IntentValues
  import opened IntentMappings
  import opened IntentDestination
  import opened IntentDestinations
  import opened Intent
  import opened IntentSettling

  function WithoutOptions(i: Intent): Intent {
    i.(options := None)
  }

  /** What is printed as the identity of an intent: the intent is parsed once more, and its options are left out. */
  function Identity(rules: Rules, i: Intent): Result<Json> {
    var canonical :- ParseIntent(rules, IntentJson(i), false);
    Ok(IntentJson(WithoutOptions(canonical)))
  }

  /** The parser leaves an intent alone with any options, or with none when there is evidence. */
  lemma OptionsAreFree(rules: Rules, i: Intent, options: Option<CopyOptions>)
    requires Fixed(rules, false, i) && (i.deployment.Some? ==> options.None?)
    ensures Fixed(rules, false, i.(options := options))
  {
    var j := i.(options := options);
    FixedIffCanonical(rules, false, i);
    FixedIffCanonical(rules, false, j);
    hide Fixed, ParseRequestId, ParseEvidence, EvidenceJson;
  }

  lemma PrintedReadsBack(rules: Rules, i: Intent)
    requires Fixed(rules, false, i)
    ensures Identity(rules, i) == Ok(IntentJson(WithoutOptions(i)))
    ensures ParseIntent(rules, IntentJson(WithoutOptions(i)), false) == Ok(WithoutOptions(i))
  {
    OptionsAreFree(rules, i, None);
    hide ParseIntent, IntentJson;
  }

  /** Two requests have one identity exactly when they differ in their options at most. */
  lemma SameIdentityIffSameButOptions(rules: Rules, i: Intent, j: Intent)
    requires Fixed(rules, false, i) && Fixed(rules, false, j)
    ensures Identity(rules, i) == Identity(rules, j) <==> WithoutOptions(i) == WithoutOptions(j)
  {
    PrintedReadsBack(rules, i);
    PrintedReadsBack(rules, j);
    hide ParseIntent, IntentJson, Identity;
  }

  // ---------- intents that are not canonical ----------

  lemma WrittenMappingNames(rules: Rules, keys: Keys, m: Mapping)
    requires Usable(keys)
    ensures NamesTarget(rules, keys, MappingJson(keys, m))
  {
    MappingFields(keys, m);
    hide MappingJson, OnlyKeys;
  }

  lemma WrittenMappingsName(rules: Rules, keys: Keys, ms: Option<seq<Mapping>>)
    requires Usable(keys)
    ensures NamesTargets(rules, keys, MappingsOption(keys, ms))
  {
    hide NamesTarget, MappingJson;
    if ms.Some? {
      var items := MappingsJson(keys, ms.value).items;
      forall item | item in items
        ensures NamesTarget(rules, keys, item)
      {
        var k :| 0 <= k < |items| && items[k] == item;
        WrittenMappingNames(rules, keys, ms.value[k]);
      }
    }
  }

  lemma WrittenDestinationNames(rules: Rules, d: Destination)
    ensures ItemNamesTargets(rules, DestinationJson(d))
  {
    FieldsOfDestination(d);
    WrittenMappingsName(rules, TOPICS, d.references.topics);
    WrittenMappingsName(rules, QUERY_VIEWS, d.references.queryViews);
    hide NamesTargets, MappingsOption, DestinationJson, OnlyKeys, Get;
  }

  /** An intent that is written names every target, as names are written as texts. */
  lemma WrittenNames(rules: Rules, i: Intent)
    ensures BodyNamesTargets(rules, IntentJson(i))
  {
    IntentFields(i);
    hide IntentJson, OnlyKeys, ItemNamesTargets, DestinationJson;
    var items := DestinationList(i.destinations);
    forall item | item in items
      ensures ItemNamesTargets(rules, item)
    {
      var k :| 0 <= k < |items| && items[k] == item;
      WrittenDestinationNames(rules, i.destinations[k]);
    }
  }

  /** What an intent is read as after it was written is canonical, whatever the intent was. */
  lemma SecondReadingIsFixed(rules: Rules, i: Intent, plan: bool)
    requires ParseIntent(rules, IntentJson(i), plan).Ok?
    ensures Fixed(rules, plan, ParseIntent(rules, IntentJson(i), plan).value)
  {
    WrittenNames(rules, i);
    ParsingIsIdempotentIffTargetsNamed(rules, IntentJson(i), plan);
    hide ParseIntent, IntentJson, Fixed, BodyNamesTargets;
  }

  /** Any two intents that have an identity have the same one exactly when they are read as requests that differ in their
      options at most. */
  lemma SameIdentityIffReadAlike(rules: Rules, i: Intent, j: Intent)
    requires ParseIntent(rules, IntentJson(i), false).Ok? && ParseIntent(rules, IntentJson(j), false).Ok?
    ensures Identity(rules, i).Ok? && Identity(rules, j).Ok?
    ensures Identity(rules, i) == Identity(rules, j)
            <==> WithoutOptions(ParseIntent(rules, IntentJson(i), false).value) == WithoutOptions(ParseIntent(rules, IntentJson(j), false).value)
  {
    var a, b := ParseIntent(rules, IntentJson(i), false).value, ParseIntent(rules, IntentJson(j), false).value;
    SecondReadingIsFixed(rules, i, false);
    SecondReadingIsFixed(rules, j, false);
    PrintedReadsBack(rules, a);
    PrintedReadsBack(rules, b);
    hide ParseIntent, IntentJson, Fixed;
  }

  ghost predicate Determines(rules: Rules, i: Intent) {
    forall j :: Fixed(rules, false, j) && Identity(rules, j) == Identity(rules, i) ==> j == i
  }

  /** The identity tells the whole request exactly when the request has evidence: only then are there no options that it
      leaves out. */
  lemma IdentityDeterminesIffEvidence(rules: Rules, i: Intent)
    requires Fixed(rules, false, i)
    ensures Determines(rules, i) <==> i.deployment.Some?
  {
    hide ParseIntent, IntentJson, Identity, Fixed;
    if i.deployment.Some? {
      forall j | Fixed(rules, false, j) && Identity(rules, j) == Identity(rules, i)
        ensures j == i
      {
        SameIdentityIffSameButOptions(rules, i, j);
        NoOptions(rules, i);
        NoOptions(rules, j);
      }
    } else {
      var other := if i.options.None? then Some(CopyOptions(true, true, true)) else None;
      var j := i.(options := other);
      OptionsAreFree(rules, i, other);
      SameIdentityIffSameButOptions(rules, i, j);
      assert j != i;
    }
  }

  lemma NoOptions(rules: Rules, i: Intent)
    requires Fixed(rules, false, i) && i.deployment.Some?
    ensures i.options.None?
  {
    FixedIffCanonical(rules, false, i);
    hide Fixed, ParseRequestId, ParseEvidence;
  }
}

/** Safe-copy requests in another order, and narrowed to some of their targets. */
module IntentNarrowing {
  import opened Options
  import opened Json
  import opened TextOrder
  import opened IntentValues
  import opened IntentDestination
  import IntentMappings
  import opened IntentSource
  import opened IntentDestinations
  import opened IntentEvidence
  import opened Intent

  // ---------- order ----------

  predicate SameItems(a: seq<Json>, b: seq<Json>) {
    (forall x :: x in a ==> x in b) && (forall x :: x in b ==> x in a)
  }

  predicate SameListBut(v: Option<Json>, w: Option<Json>, limit: nat) {
    && v.Some? && v.value.List? && w.Some? && w.value.List?
    && |v.value.items| <= limit && |w.value.items| <= limit && SameItems(v.value.items, w.value.items)
  }

  ghost predicate SameFieldsBut(v: Json, w: Json, keys: set<string>) {
    && v.Object? && w.Object? && v.fields.Keys == w.fields.Keys
    && forall key :: key !in keys ==> Get(v, key) == Get(w, key)
  }

  /** Two bodies that differ in the order and the repetition of their documents and destinations, within the limits. */
  ghost predicate Rearranged(v: Json, w: Json) {
    && SameFieldsBut(v, w, {SOURCE, DESTINATIONS})
    && SameListBut(Get(v, DESTINATIONS), Get(w, DESTINATIONS), MAX_DESTINATIONS)
    && Get(v, SOURCE).Some? && Get(w, SOURCE).Some?
    && SameFieldsBut(Get(v, SOURCE).value, Get(w, SOURCE).value, {DOCUMENT_IDS})
    && SameListBut(Get(Get(v, SOURCE).value, DOCUMENT_IDS), Get(Get(w, SOURCE).value, DOCUMENT_IDS), IntentSource.MAX_DOCUMENTS)
  }

  lemma RearrangedParts(rules: Rules, v: Json, w: Json, contentOnly: bool)
    requires Rearranged(v, w)
    ensures ParseSource(Get(v, SOURCE)).Ok? ==> ParseSource(Get(w, SOURCE)) == ParseSource(Get(v, SOURCE))
    ensures ParseDestinations(rules, Get(v, DESTINATIONS), contentOnly).Ok? ==>
              ParseDestinations(rules, Get(w, DESTINATIONS), contentOnly) == ParseDestinations(rules, Get(v, DESTINATIONS), contentOnly)
  {
    DocumentsInAnyOrder(Get(v, SOURCE), Get(w, SOURCE));
    DestinationsInAnyOrder(rules, Get(v, DESTINATIONS), Get(w, DESTINATIONS), contentOnly);
  }

  lemma KeysOfBody()
    ensures {PROFILE, REQUEST_ID, OPTIONS, DEPLOYMENT} !! {SOURCE, DESTINATIONS}
  {}

  lemma PartsDetermineIntent(rules: Rules, v: Json, w: Json, plan: bool)
    requires ParseIntent(rules, v, plan).Ok? && w.Object? && OnlyKeys(w, BODY_KEYS)
    requires Get(w, PROFILE) == Get(v, PROFILE) && Get(w, REQUEST_ID) == Get(v, REQUEST_ID)
    requires Get(w, OPTIONS) == Get(v, OPTIONS) && Get(w, DEPLOYMENT) == Get(v, DEPLOYMENT)
    requires ParseSource(Get(w, SOURCE)) == ParseSource(Get(v, SOURCE))
    requires var contentOnly := plan || Get(v, DEPLOYMENT).Some?;
             ParseDestinations(rules, Get(w, DESTINATIONS), contentOnly) == ParseDestinations(rules, Get(v, DESTINATIONS), contentOnly)
    ensures ParseIntent(rules, w, plan) == ParseIntent(rules, v, plan)
  {
    hide Get, OnlyKeys, ParseRequestId, ParseSource, ParseDestinations, ParseEvidence, BindingsApproved, OptionsAllowed, ReadOptions;
  }

  lemma RearrangedParsesToo(rules: Rules, v: Json, w: Json, plan: bool)
    requires Rearranged(v, w) && ParseIntent(rules, v, plan).Ok?
    ensures ParseIntent(rules, w, plan) == ParseIntent(rules, v, plan)
  {
    RearrangedParts(rules, v, w, plan || Get(v, DEPLOYMENT).Some?);
    ParsedFields(rules, v, plan);
    KeysOfBody();
    assert OnlyKeys(v, BODY_KEYS);
    hide ParseRequestId, ParseSource, ParseDestinations, ParseEvidence, BindingsApproved, ParseIntent;
    PartsDetermineIntent(rules, v, w, plan);
  }

  /** Neither the order of documents and destinations nor repeating them changes the intent, or whether there is one. */
  lemma OrderIsNoPartOfIntent(rules: Rules, v: Json, w: Json, plan: bool)
    requires Rearranged(v, w)
    ensures ParseIntent(rules, v, plan).Ok? <==> ParseIntent(rules, w, plan).Ok?
    ensures ParseIntent(rules, v, plan).Ok? ==> ParseIntent(rules, w, plan) == ParseIntent(rules, v, plan)
  {
    if ParseIntent(rules, v, plan).Ok? {
      RearrangedParsesToo(rules, v, w, plan);
    }
    if ParseIntent(rules, w, plan).Ok? {
      assert Rearranged(w, v);
      RearrangedParsesToo(rules, w, v, plan);
    }
  }

  // ---------- narrowing ----------

  function KeepTargets(ds: seq<Destination>, ids: set<string>): seq<Destination> {
    if ds == [] then []
    else
      var last := ds[|ds| - 1];
      KeepTargets(ds[..|ds| - 1], ids) + if last.target.targetId in ids then [last] else []
  }

  function Targets(ds: seq<Destination>): set<string> {
    set d | d in ds :: d.target.targetId
  }

  function Narrow(i: Intent, ids: set<string>): Intent {
    var ds := KeepTargets(i.destinations, ids);
    i.(destinations := ds,
       deployment := if i.deployment.Some? then Some(NarrowDeployment(i.deployment.value, Targets(ds))) else None)
  }

  lemma {:induction false} KeptMembers(ds: seq<Destination>, ids: set<string>)
    ensures forall d :: d in KeepTargets(ds, ids) <==> d in ds && d.target.targetId in ids
    ensures |KeepTargets(ds, ids)| <= |ds|
  {
    if ds != [] {
      KeptMembers(ds[..|ds| - 1], ids);
      assert ds == ds[..|ds| - 1] + [ds[|ds| - 1]];
    }
  }

  /** Before the last one of a list come only destinations with earlier targets, for other model scopes. */
  predicate ComesLast(rules: Rules, ds: seq<Destination>, last: Destination, contentOnly: bool) {
    forall k :: 0 <= k < |ds| ==>
      Before(ds[k].target.targetId, last.target.targetId) && ScopeOf(rules, ds[k], contentOnly) != ScopeOf(rules, last, contentOnly)
  }

  predicate InOrder(rules: Rules, ds: seq<Destination>, contentOnly: bool) {
    Increasing(TargetIds(ds)) && ApartScopes(rules, ds, contentOnly)
  }

  lemma OrderByLast(rules: Rules, ds: seq<Destination>, last: Destination, contentOnly: bool)
    ensures InOrder(rules, ds + [last], contentOnly) <==> InOrder(rules, ds, contentOnly) && ComesLast(rules, ds, last, contentOnly)
  {
    hide ScopeOf, Before;
    var all := ds + [last];
    var ids := TargetIds(all);
    assert ids == TargetIds(ds) + [last.target.targetId];
    assert all[|ds|] == last && forall k :: 0 <= k < |ds| ==> all[k] == ds[k];
    if InOrder(rules, all, contentOnly) {
      forall k | 0 <= k < |ds|
        ensures Before(ds[k].target.targetId, last.target.targetId)
      {
        assert Before(ids[k], ids[|ds|]);
      }
      assert forall k :: 0 <= k < |ds| ==> TargetIds(ds)[k] == ids[k];
    }
  }

  lemma {:induction false} KeptStayInOrder(rules: Rules, ds: seq<Destination>, ids: set<string>, contentOnly: bool)
    requires InOrder(rules, ds, contentOnly)
    ensures InOrder(rules, KeepTargets(ds, ids), contentOnly)
  {
    if ds != [] {
      var front, last := ds[..|ds| - 1], ds[|ds| - 1];
      var kept := KeepTargets(front, ids);
      assert ds == front + [last];
      hide ScopeOf, Before, InOrder, ComesLast;
      OrderByLast(rules, front, last, contentOnly);
      KeptStayInOrder(rules, front, ids, contentOnly);
      KeptMembers(front, ids);
      MembersComeBefore(rules, front, kept, last, contentOnly);
      OrderByLast(rules, kept, last, contentOnly);
    }
  }

  lemma MembersComeBefore(rules: Rules, ds: seq<Destination>, some: seq<Destination>, last: Destination, contentOnly: bool)
    requires ComesLast(rules, ds, last, contentOnly) && forall d :: d in some ==> d in ds
    ensures ComesLast(rules, some, last, contentOnly)
  {
    hide ScopeOf, Before;
    assert forall k :: 0 <= k < |some| ==> some[k] in ds;
  }

  lemma {:induction false} KeepTwice(ds: seq<Destination>, a: set<string>, b: set<string>)
    ensures KeepTargets(KeepTargets(ds, a), b) == KeepTargets(ds, a * b)
  {
    if ds != [] {
      var front, last := ds[..|ds| - 1], ds[|ds| - 1];
      KeepTwice(front, a, b);
      var once := KeepTargets(front, a);
      if last.target.targetId in a {
        assert (once + [last])[..|once|] == once;
      } else {
        assert once + [] == once;
      }
    }
  }

  /** Narrowing twice is narrowing to the targets of both. */
  lemma NarrowTwice(i: Intent, a: set<string>, b: set<string>)
    ensures Narrow(Narrow(i, a), b) == Narrow(i, a * b)
  {
    KeepTwice(i.destinations, a, b);
    var once, twice := KeepTargets(i.destinations, a), KeepTargets(i.destinations, a * b);
    KeptMembers(i.destinations, a);
    KeptMembers(i.destinations, a * b);
    assert Targets(twice) <= Targets(once);
    if i.deployment.Some? {
      var d := i.deployment.value;
      hide KeepTargets, Targets;
      NarrowDeploymentTwice(d, Targets(once), Targets(twice));
    }
  }

  /** Of these hashes just those of the targets are left. */
  predicate KeepsHashes(was: Hashes, now: Hashes, targets: set<string>) {
    now.Keys == was.Keys * targets && forall id :: id in now ==> now[id] == was[id]
  }

  /** A narrowed request is for just those of its destinations; the rest of it stays, but the hashes and fingerprints of
      the other targets. */
  lemma NarrowedSays(i: Intent, ids: set<string>)
    ensures var r := Narrow(i, ids);
            && r == i.(destinations := r.destinations, deployment := r.deployment)
            && (forall d :: d in r.destinations <==> d in i.destinations && d.target.targetId in ids)
            && (r.deployment.Some? <==> i.deployment.Some?)
            && (r.deployment.Some? ==>
                  var was, now, targets := i.deployment.value, r.deployment.value, Targets(i.destinations) * ids;
                  && now == was.(modelHashes := now.modelHashes, fingerprints := now.fingerprints)
                  && KeepsHashes(was.modelHashes, now.modelHashes, targets)
                  && (now.fingerprints.Some? <==> was.fingerprints.Some?)
                  && (now.fingerprints.Some? ==> KeepsHashes(was.fingerprints.value, now.fingerprints.value, targets)))
  {
    KeptMembers(i.destinations, ids);
    assert Targets(Narrow(i, ids).destinations) == Targets(i.destinations) * ids;
    hide KeepTargets, Targets;
  }

  lemma NarrowDeploymentTwice(d: Deployment, a: set<string>, b: set<string>)
    requires b <= a
    ensures NarrowDeployment(NarrowDeployment(d, a), b) == NarrowDeployment(d, b)
  {
    assert forall hashes: Hashes :: Keep(Keep(hashes, a), b) == Keep(hashes, b);
  }

  lemma NarrowedEvidence(rules: Rules, source: Source, ds: seq<Destination>, kept: seq<Destination>, deployment: Option<Deployment>)
    requires ParseEvidence(rules, source, ds, EvidenceJson(deployment)) == Ok(deployment) && forall d :: d in kept ==> d in ds
    ensures var narrowed := if deployment.Some? then Some(NarrowDeployment(deployment.value, Targets(kept))) else None;
            ParseEvidence(rules, source, kept, EvidenceJson(narrowed)) == Ok(narrowed)
  {
    if deployment.Some? {
      var scope, narrower := ScopeFor(source, ds), ScopeFor(source, kept);
      assert narrower.targets == Targets(kept) && narrower.targets <= scope.targets && (narrower.staged ==> scope.staged);
      NarrowedDeploymentReads(rules, scope, DeploymentJson(deployment.value), narrower.targets, narrower.staged);
      hide ParseDeployment, NarrowDeployment, DeploymentJson, Targets;
    }
  }

  lemma KeptAreCanonical(rules: Rules, ds: seq<Destination>, ids: set<string>, contentOnly: bool)
    requires CanonicalDestinations(rules, ds, contentOnly) && KeepTargets(ds, ids) != []
    ensures CanonicalDestinations(rules, KeepTargets(ds, ids), contentOnly)
  {
    hide ReadsBack, Increasing, ApartScopes, KeepTargets;
    var kept := KeepTargets(ds, ids);
    KeptMembers(ds, ids);
    KeptStayInOrder(rules, ds, ids, contentOnly);
    forall k | 0 <= k < |kept|
      ensures ReadsBack(rules, kept[k], contentOnly)
    {
      assert kept[k] in ds;
    }
  }

  lemma FewerCells(documents: nat, kept: nat, all: nat, limit: nat)
    requires kept <= all && documents * all <= limit
    ensures documents * kept <= limit
  {}

  lemma NarrowedIsCanonical(rules: Rules, plan: bool, i: Intent, ids: set<string>)
    requires CanonicalIntent(rules, plan, i) && KeepTargets(i.destinations, ids) != []
    ensures CanonicalIntent(rules, plan, Narrow(i, ids))
  {
    var kept := KeepTargets(i.destinations, ids);
    KeptMembers(i.destinations, ids);
    KeptAreCanonical(rules, i.destinations, ids, ContentOnly(plan, i));
    NarrowedEvidence(rules, i.source, i.destinations, kept, i.deployment);
    NarrowedBindings(plan, i.destinations, kept, i.deployment, Targets(kept));
    FewerCells(|i.source.documentIds|, |kept|, |i.destinations|, IntentMappings.MAX_MATRIX_CELLS);
    hide CanonicalSource, CanonicalDestinations, ParseRequestId, ParseEvidence, EvidenceJson, NarrowDeployment, KeepTargets, Targets,
         BindingsApproved;
  }

  lemma NarrowedBindings(plan: bool, ds: seq<Destination>, kept: seq<Destination>, deployment: Option<Deployment>, targets: set<string>)
    requires BindingsApproved(plan, ds, deployment) && forall d :: d in kept ==> d in ds
    ensures BindingsApproved(plan, kept, if deployment.Some? then Some(NarrowDeployment(deployment.value, targets)) else None)
  {}

  /** A canonical intent narrowed to some targets is canonical exactly when it keeps a destination. */
  lemma NarrowedIsCanonicalIffNotEmpty(rules: Rules, plan: bool, i: Intent, ids: set<string>)
    requires Fixed(rules, plan, i)
    ensures Fixed(rules, plan, Narrow(i, ids)) <==> exists d :: d in i.destinations && d.target.targetId in ids
  {
    var kept := KeepTargets(i.destinations, ids);
    FixedIffCanonical(rules, plan, i);
    FixedIffCanonical(rules, plan, Narrow(i, ids));
    KeptMembers(i.destinations, ids);
    hide Fixed, KeepTargets;
    if kept != [] {
      NarrowedIsCanonical(rules, plan, i, ids);
      assert kept[0] in i.destinations && kept[0].target.targetId in ids;
    }
  }
}

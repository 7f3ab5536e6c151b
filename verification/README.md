# OmniKit: models and proofs

OmniKit copies dashboards between Omni instances. This project models the parts of it whose correctness is hard to
see from the code, and proves what they promise:

- **Dependency readiness**: the breadth-first search that finds join paths and counts them exactly, the selection
  of joins, and the bounded worklist of field references.
- **Package dependency closure and aggregation**: the depth-first closure with its once-a-file settings scans, the
  plan of one tile, and the fold of all tiles into one package.
- **The deployment plan protocol**: a plan store, a job ledger, locks that a crash loses, and operations that wait
  between atomic sections, as a transition system.
- **Request identity and intents**: the validating parser whose result is the idempotency identity, from JSON
  values to canonical intents and back; which bodies it accepts and what it makes of them, told by their fields alone;
  and its narrowing to some targets.
- **Codecs and names**: canonical base64 by RFC 4648, and dated branch names over the civil calendar of ECMA-262.
- **Pagination and the readiness cache**: list reads by index and by cursor, document and folder inventories with
  their nested records, and the cache of reports under interleaved requests.
- **Tree rewriting, the worker pool and the dashboard index.**

Code that changes state step by step is modelled by methods and classes that are proved equal to specification
functions, or to meet their promises outright; what the promises mean together is proved about those functions.
Where other code runs between two awaits, the model is a state machine and the theorems range over all its runs.

Some of what one might expect turned out false of the code. In each case the model does what the code does, a lemma
shows the failure, and another proves the condition under which the code does keep the promise:

- A replayed deployment request returns its job only if its identity is spelled as it is stored
  (`DeploymentTheorems.ReplayReturnsSameJob`, `OtherSpellingIsRefused`).
- A cycle error need not be a cycle of definitions, and depends on the order of the fields
  (`DependencyClosure.CycleErrorDependsOnOrder`); some order reports one exactly when references lead from a field to
  one whose definition needs it (`DependencyCycles.SomeOrderReportsIffClosing`).
- Parsing an intent is not idempotent when a mapping outside a content-only request has a target name that is not
  falsy and prints as nothing (`IntentSettling.ParsingIsIdempotentIffTargetsNamed`, `EmptyNameIsNotReadBack`).
- The verdict on a package depends on the order of its tiles through the file limit: exactly when some tiles fit last
  and others do not (`PackageOrder.VerdictIgnoresOrderIffLastsAgree`, `PackageRepeats.LimitDependsOnOrder`). File names
  and shown sources can depend on it as well: `PackageOrder.NamesIgnoreOrderIffUncontested` and
  `PackageIgnoresOrderIffUnshared` say exactly when. For names of which only one counts as a file of its kind, the
  verdict also depends on it without the limit (`PackageRepeats.VerdictNeedsLaw`).
- The recorded `before` of a file whose identity is ambiguous is empty although the file is there
  (`PackageTile.BeforeIsTargetText`).
- A follower of a shared build may be served past the stale deadline at its own clock
  (`ReadinessRequests.FollowerMayBeLate`), only if it found nothing in the cache
  (`ReadinessFollowers.FoundIsServedInTime`), and always then if clocks do not go back and the cache has room
  (`FollowerIsLateIffNothingFound`).
- The latest delivery in the readiness report is the greatest text, which is not the greatest time once a year has more
  than four digits (`ReadinessAggregates.LatestIsGreatest`, `LatestDelivery.LatestMayBeEarlier`).
- A historical branch name with capitals in its prefix is recognised and yet belongs to no plan
  (`BranchNames.PlansOfName`, `CapitalsBelongToNoPlan`).
- The printed identity of a request leaves its options out (`IntentIdentity.IdentityDeterminesIffEvidence`).

`dafny verify dfyconfig.toml` checks everything.

## Model

| member | source | states |
|---|---|---|
| JoinSearch.Search | server/services/dashboardDependencyReadiness.ts:235-247 | a view has a recorded walk just when it is connected to the first view; the walk is a shortest one; `ways` is the number of shortest walks, parallel edges counted apart and self-joins never used |
| JoinSearch.CrossAll | server/services/dashboardDependencyReadiness.ts:240-246 | relaxing all edges at one view keeps the count of shortest walks through the part of the frontier already taken |
| JoinSearch.EdgeCount | server/services/dashboardDependencyReadiness.ts:244-245 | one edge adds exactly the shortest walks that end with it, and none that was counted before |
| JoinSearch.SearchEnds | server/services/dashboardDependencyReadiness.ts:238-247 | when the queue is empty, every connected view is recorded and every one of its shortest walks is counted |
| JoinSearch.RecordedIsShortest | server/services/dashboardDependencyReadiness.ts:243-245 | no walk is shorter than the recorded one, whatever the order of discovery |
| JoinWalks.WalksPassViews | server/services/dashboardDependencyReadiness.ts:239-245 | a list of relationships is a walk exactly when there are views, from the first to the last, of which each two in a row are the two views of the relationship between them, whichever is written first |
| JoinWalks.ConnectedBothWays | server/services/dashboardDependencyReadiness.ts:239-245 | two views are connected one way exactly when they are the other way, by shortest walks of one length |
| JoinWalks.SearchIgnoresDirection | server/services/dashboardDependencyReadiness.ts:235-247 | writing the two views of any relationships the other way round changes neither which views a search records, nor how long their walks are, nor how many shortest walks it counts |
| JoinSelection.FindJoinPath | server/services/dashboardDependencyReadiness.ts:234-253 | for one referenced view: a shortest walk if there is any, and "several" just when there is more than one |
| JoinSelection.ManyWaysIsAmbiguous | server/services/dashboardDependencyReadiness.ts:248-251 | the test `ways > 1` holds just when two different shortest walks exist |
| JoinSelection.SelectJoins | server/services/dashboardDependencyReadiness.ts:232-253 | the needed edges are exactly on shortest walks of referenced views and connect every reachable one to the first; the flagged views are exactly the ambiguous ones |
| JoinOrder.RenumberedShortest | server/services/dashboardDependencyReadiness.ts:228-247 | listing the relationships in another order carries shortest walks to shortest walks |
| JoinOrder.SelectionIgnoresOrder | server/services/dashboardDependencyReadiness.ts:232-254 | in every order of the relationship list the same views are flagged, and when none is, the same join edges are chosen, one by one under every renumbering |
| FieldWorklist.Worklist.constructor | server/services/dashboardDependencyReadiness.ts:119-122 | the worklist starts with no seeds and nothing seen; references are put on it as seeds |
| FieldWorklist.Worklist.InspectViewSettings | server/services/dashboardDependencyReadiness.ts:136-152 | the settings of a required view file are checked once, and the references in them become seeds |
| FieldWorklist.Worklist.Expand | server/services/dashboardDependencyReadiness.ts:158-191 | the references of one field, and of its file on the first visit, are appended, or the definition cannot be read |
| FieldWorklist.Catalog.NextExactly | server/services/dashboardDependencyReadiness.ts:158-191 | a visit makes necessary just what the definition that counts refers to (a document-local one before that of the view’s file) and, where there is one and the file is known, what the settings of that file refer to |
| FieldWorklist.Worklist.VisitFields | server/services/dashboardDependencyReadiness.ts:153-192 | the loop ends; it ends without an error just when some closed set of at most 5,000 references holds the seeds and nothing unreadable, and then `seen` is the least closed set |
| FieldWorklist.Worklist.Push | server/services/dashboardDependencyReadiness.ts:258-267 | references of later phases join the list as further seeds |
| FieldWorklist.LimitFiresExactly | server/services/dashboardDependencyReadiness.ts:153-157 | when every reference the seeds lead to can be read, the limit fires exactly when the closure has more than 5,000 references |
| FieldWorklist.ClosureIsUnique | server/services/dashboardDependencyReadiness.ts:153-192 | two inspections of the same seeds see the same references, whatever the order of the queue |
| FieldWorklist.Catalog.MoreSeedsKeepCover | server/services/dashboardDependencyReadiness.ts:193-209 | later seeds join a worklist that is already closed without undoing it |
| DependencyClosure.FieldClosure.VisitField | server/services/dashboardPackageDependencies.ts:246-291 | one visit, with its checks in their order and the mark removed however it ends, does what the specification says |
| DependencyClosure.FieldClosure.ScanSettingsOf | server/services/dashboardPackageDependencies.ts:273-288 | settings are scanned once a file and skip references that are being visited |
| DependencyClosure.FieldClosure.PlanFields | server/services/dashboardPackageDependencies.ts:292-299 | the loop over the roots and then the defaults of the model does what the specification says; `DependencyRoots` says what that is |
| DependencyRoots.EveryRootIsTried | server/services/dashboardPackageDependencies.ts:292-299 | each root is visited from where the one before it left the closure, whatever that one came to; the issues are those of the failing roots, one each and in their order, then at most one of the defaults, and every other root is in the final `seen` |
| DependencyRoots.ReadableRootIsSeen | server/services/dashboardPackageDependencies.ts:292-294 | a root from which references reach only fields that can be read and that close no cycle is in the final `seen`, whatever roots come before and after it and whatever they come to, when no limit is met |
| DependencyRoots.DeepChainIsRefused | server/services/dashboardPackageDependencies.ts:249-249 | a chain of definitions through more than 101 fields is refused, at its field at depth 101 |
| DependencyRoots.ShortChainIsVisited | server/services/dashboardPackageDependencies.ts:246-291 | a chain that ends within 101 fields is visited from its end to its start |
| DependencyRoots.FullClosureStops | server/services/dashboardPackageDependencies.ts:249-249 | with 5,000 fields visited a further one is refused and changes nothing |
| DependencyClosure.PlanIsTopological | server/services/dashboardPackageDependencies.ts:246-294 | however many roots fail, `seen` lists each field after all fields its definition needs, and nothing stays marked |
| DependencyClosure.PlanWithoutIssuesIsComplete | server/services/dashboardPackageDependencies.ts:246-299 | a plan without issues has seen every root and is closed under definitions and view settings, also those skipped while they were being visited |
| DependencyClosure.VisitedFieldsAreAcyclic | server/services/dashboardPackageDependencies.ts:246-291 | no seen field is on a cycle of definitions |
| DependencyClosure.DefinitionCycleIsReported | server/services/dashboardPackageDependencies.ts:247-247 | a root from which definitions lead into a cycle always gives an issue |
| DependencyClosure.CycleErrorIsReferenceCycle | server/services/dashboardPackageDependencies.ts:247-299 | for any roots: a cycle that is reported is a cycle of definitions and view settings together, the reference that closes it stands in a definition, and references lead to it from a root or from the defaults |
| DependencyClosure.CycleErrorDependsOnOrder | server/services/dashboardPackageDependencies.ts:273-279 | one catalog without any cycle of definitions, where one order of two roots reports a cycle and the other does not |
| DependencyCycles.ClosingFieldFails | server/services/dashboardPackageDependencies.ts:246-291 | a field from which references lead to a field whose definition needs it is never visited when it comes first |
| DependencyCycles.ClosingRootReports | server/services/dashboardPackageDependencies.ts:246-299 | for any roots among fields that can be read, away from the limits: a root from which references lead to a field whose definition needs it gives a cycle error when it comes first |
| DependencyCycles.SomeRootsReportIffClosing | server/services/dashboardPackageDependencies.ts:246-299 | some list of roots among such fields reports a cycle exactly when references lead from some field to one whose definition needs it |
| DependencyCycles.SomeOrderReportsIffClosing | server/services/dashboardPackageDependencies.ts:246-299 | with all fields as roots, the same holds of their orders |
| DependencyCycles.FalseCycleIffClosing | server/services/dashboardPackageDependencies.ts:246-299 | with all fields as roots and without cycles of definitions, that is exactly when some order reports a cycle at a field that is on none |
| DependencyCycles.FewFieldsAreWithinLimits | server/services/dashboardPackageDependencies.ts:249-249 | such a package of at most 101 fields meets no limit in any order |
| PackageTile.Merge | server/services/dashboardPackageDependencies.ts:392-393 | an additive merge keeps every existing definition, adds the missing ones, has no others, and fails just when the two texts disagree |
| PackageTile.PlanFiles | server/services/dashboardPackageDependencies.ts:369-405 | placing, merging and downgrading the files of one tile in the loops of the planner |
| PackageTile.EntryKeepsDefinitions | server/services/dashboardPackageDependencies.ts:394-395 | an entry that is no conflict is created just when the file is absent and reused just when the merge adds nothing |
| PackageTile.BeforeIsTargetText | server/services/dashboardPackageDependencies.ts:371-399 | `before` is the destination text except for a file that is there and whose identity is ambiguous; that one is recorded as a conflict with empty text |
| PackageTile.TileIsAtomic | server/services/dashboardPackageDependencies.ts:134-405 | a tile with any issue creates and adds nothing, a tile without issues has no conflict; it has an issue exactly for a destination of more than 5,000 files, for an issue of the search, or for a file that is a conflict of its own |
| PackageShown.ConflictShowsNoChange | server/services/dashboardPackageDependencies.ts:371-399 | a file that is planned as a conflict shows one text on both sides: the destination text, or none where its identity is ambiguous |
| PackageShown.DowngradeKeepsRest | server/services/dashboardPackageDependencies.ts:402-405 | a downgrade changes the action, from create or add to conflict, and nothing else |
| PackageAggregation.PreparePackage | server/services/dashboardPackagePlan.ts:207-233 | the nested loops over tiles and files compute the fold that the lemmas are about |
| PackageAggregation.PackageIsSound | server/services/dashboardPackagePlan.ts:219-230 | for all tiles in any order: `before` is the snapshot text (or a conflict with empty text), the projected text of every file extends the snapshot text, `projected` equals `after` for every file without a conflict, every conflict has an issue, and create, add and reuse mean absent, changed and unchanged |
| PackageAggregation.MoreTilesKeepConflicts | server/services/dashboardPackagePlan.ts:221-229 | a conflict is never cleared by later tiles and keeps its own finding and comparison |
| PackageShown.FirstConflictIsShown | server/services/dashboardPackagePlan.ts:219-230 | an entry shows the first conflict of its file, or else the last plan, against the text with which the file came first |
| PackageShown.PackageShowsAll | server/services/dashboardPackagePlan.ts:207-233 | for all tiles in any order: every entry, conflicts included, shows a text that holds all definitions of the text it is compared with |
| PackageClasses.TileByClass | server/services/dashboardPackageDependencies.ts:367-405 | a tile has no issue exactly when its search raised none and each class of names that differ in case at most can take what the tile needs of it: nothing, new files whose names differ, or one file that agrees with the one there is |
| PackageVerdict.ClassComesOut | server/services/dashboardPackageDependencies.ts:370-395 | a class goes through a list of tiles exactly when each tile needs at most one file of it and all versions agree with each other and with the destination, or one tile alone needs several new ones; it then holds exactly the definitions there were and those needed, under the name there was or that of the first tile |
| PackageVerdict.ClassIgnoresOrder | server/services/dashboardPackageDependencies.ts:370-395 | in another order of the tiles a class goes through as well, with the same files, or with one file of the same identity and definitions under another name |
| PackageFold.PackageByClass | server/services/dashboardPackagePlan.ts:207-233 | the package has no issue exactly when no tile is blocked, every class goes through, and before each tile at most 5,000 files have come out; every projected file is then as its class came out, and it is listed under a source of the last tile that needs it |
| PackageRoom.OutGrows | server/services/dashboardPackagePlan.ts:228-230 | the last tile adds to the files that come out exactly its sources of classes that the destination lacks and no other tile needs |
| PackageRoom.FitsReordered | server/services/dashboardPackageDependencies.ts:183-185 | in every order as many files come out, although their names may differ |
| PackageRoom.VerdictByLast | server/services/dashboardPackagePlan.ts:207-233 | an order has no issue exactly when no tile is blocked, every class goes through in some order, and its last tile fits: without the files that only that tile adds there are at most 5,000 |
| PackageOrder.PackageVerdictExactly | server/services/dashboardPackagePlan.ts:207-233 | the package has no issue exactly when no tile is blocked, what is needed of every class is compatible, whatever files compete for a name, and the last tile fits; every class then is as its outcome says |
| PackageOrder.VerdictIgnoresOrderIffLastsAgree | server/services/dashboardPackagePlan.ts:207-233 | the verdict is the same in every order of the tiles exactly when a tile is blocked, what is needed of some class is not compatible, or all tiles fit last or none does |
| PackageOrder.NoOrderHasIssues | server/services/dashboardPackagePlan.ts:207-233 | no order has an issue exactly when no tile is blocked, what is needed is compatible and every tile fits last |
| PackageOrder.OrderKeepsDefinitions | server/services/dashboardPackagePlan.ts:207-233 | in any two orders without issues every class holds the same files, or one file of one identity with the same definitions under another name |
| PackageOrder.NamesIgnoreOrderIffUncontested | server/services/dashboardPackagePlan.ts:207-233 | the projected files are the same in every order without issues exactly when no two tiles that may come first need different sources of one identity that the destination lacks |
| PackageOrder.PackageIgnoresOrderIffUnshared | server/services/dashboardPackagePlan.ts:219-230 | entries and projected files are all the same in every order without issues exactly when, in addition, no two tiles that may be the last to need an identity need different sources of it |
| PackageRepeats.RepeatsIffOneOfEach | server/services/dashboardPackagePlan.ts:207-233 | a package without issues takes one of its tiles again exactly when that tile needs at most one file of each class and at most 5,000 files have come out; no projected file then changes |
| PackageRepeats.VerdictNeedsLaw | server/services/dashboardPackageDependencies.ts:377-378 | where two names differ in case only and one of them has another identity or kind, such as `x.view` and `x.VIEW`, two tiles have an issue in one order and none in the other |
| PackageRepeats.FirstSpellingWins | server/services/dashboardPackageDependencies.ts:372-376 | two sources of one identity end up in one file under the name that came first |
| PackageRepeats.LimitDependsOnOrder | server/services/dashboardPackageDependencies.ts:183-185 | one pair of tiles that do not both fit last: at 5,000 destination files a tile that creates a file stops an empty tile after it and not before it |
| DeploymentSafety.SaveKeepsStore | server/services/dashboardDeploymentPlans.ts:34-48 | a save replaces the plan of its own id or appends it, and no other plan is touched |
| DeploymentSafety.StepKeepsInv | server/services/dashboardDeploymentPlans.ts:62-92 | every step of every operation keeps: one plan an id and a request, one deployment job a plan and destination, one holder a lock, and each waiting operation current |
| DeploymentSafety.RunKeepsInv | server/services/dashboardDeploymentPlans.ts:62-92 | the same over whole runs with interleaving, retries and crashes at any point |
| DeploymentTheorems.AtMostOneJob | server/services/dashboardDeploymentPlans.ts:586-627 | the ledger never holds two deployment jobs for one plan and destination, nor two jobs of one request identity, even when a crash comes between creating the job and saving the plan |
| DeploymentTheorems.ReplayReturnsSameJob | server/services/dashboardDeploymentPlans.ts:586-595 | repeating the request of a stored job returns that job exactly when the identity is written as it is stored; any other spelling of it is refused, and no second job is made |
| DeploymentTheorems.OtherSpellingIsRefused | server/services/dashboardDeploymentPlans.ts:586-595 | a replay with surrounding space is refused although it names the same identity |
| DeploymentTheorems.OtherSelectionIsRefused | server/services/dashboardDeploymentPlans.ts:586-590 | the request of a stored job for other destinations, or for more or fewer of them, is refused |
| DeploymentEffects.CheckedExactly | server/services/dashboardDeploymentPlans.ts:583-602 | a request goes on to inspection exactly when the plan is free, the destinations are different ones of the plan, no job has this request or any of them, and all are shown ready, without a job, at the revision, evidence version and confirmations of the request |
| DeploymentEffects.DeployEffect | server/services/dashboardDeploymentPlans.ts:583-602 | a refused request leaves no trace, a replay notes the stored job at its destinations, and a checked request waits and holds the plan |
| DeploymentEffects.InspectionEffect | server/services/dashboardDeploymentPlans.ts:603-617 | evidence that changed withdraws the approval: the plan as inspected is stored and the ready ones among the destinations need a recheck |
| DeploymentEffects.DispatchIsStored | server/services/dashboardDeploymentPlans.ts:625-627 | the refreshed plan that a dispatch leaves to be stored is stored as it is, and the plan is free again |
| DeploymentEffects.DirectJobEffect | server/services/dashboardSafeCopyJobs.ts:154-159 | a job that enters without a plan is recorded only under a request that no job has |
| DeploymentTheorems.DispatchWasApproved | server/services/dashboardDeploymentPlans.ts:583-627 | every dispatched destination was ready in the stored plan at the revision of the request, with a completed readiness run and the current evidence version, and the job carries exactly the stored and the freshly inspected evidence |
| DeploymentTheorems.DispatchIsApproved | server/services/dashboardDeploymentPlans.ts:601-626 | the same for a single dispatch from any state that keeps the invariant |
| DeploymentTheorems.ReadyIsAsStored | server/services/dashboardDeploymentPlans.ts:50-61 | a plan is shown with a ready destination only as it is stored, after a completed run |
| DeploymentEffects.ShownTargets | server/services/dashboardDeploymentPlans.ts:50-61 | every target is shown as it is stored, unless the readiness run has not completed or the evidence version is another than 6: then every target needs a recheck |
| DeploymentTheorems.RunKeepsLedger | server/services/dashboardDeploymentPlans.ts:625-627 | the ledger only grows |
| DeploymentRevisions.StepAdvances | server/services/dashboardDeploymentPlans.ts:481-565 | each step changes at most its own plan, never lowers its revision, and raises it whenever choices, evidence, or the model hash or package fingerprint of a destination change or a destination becomes ready; what else it leaves is told by `DeploymentEffects` |
| DeploymentEffects.UpdateEffect | server/services/dashboardDeploymentPlans.ts:516-565 | an update that is taken gives the destination exactly the new choices and the need of a recheck, raises the revision by one, and leaves the choices of every other destination and all else of every target as shown; it is taken exactly for the revision shown, a destination without any job, and choices that differ |
| DeploymentChoices.OnlyInspectionMakesReady | server/services/dashboardDeploymentPlans.ts:481-627 | a destination of a stored plan becomes ready only by a step that stores an inspection |
| DeploymentChoices.UpdatedIsInspectedAgain | server/services/dashboardDeploymentPlans.ts:516-627 | over every run: no destination is dispatched whose choices were updated, unless an inspection that was stored since the update found it ready |
| DeploymentChoices.UpdateIsAlone | server/services/dashboardDeploymentPlans.ts:516-524 | while choices are updated no other operation on the plan waits, so every inspection stored later has begun later |
| DeploymentEffects.RecheckStartEffect | server/services/dashboardDeploymentPlans.ts:487-494 | a recheck stores the next revision with every destination in need of a recheck before it reads anything |
| DeploymentEffects.RecheckEndEffect | server/services/dashboardDeploymentPlans.ts:495-512 | in every run a recheck that succeeds stores what it found with its run completed, and one that fails leaves the plan it began with its run stopped |
| DeploymentEffects.LinkEffect | server/services/dashboardDeploymentPlans.ts:673-689 | a repair job is linked once to a target, which then needs a recheck at the next revision; nothing else changes |
| DeploymentEffects.TopicRepairEffect | server/services/dashboardDeploymentPlans.ts:69-92 | a finished topic repair stores its choices and its job in the same way |
| DeploymentEffects.TopicRepairStartEffect | server/services/dashboardDeploymentPlans.ts:69-80 | a topic repair waits for a target shown at its revision without any job |
| DeploymentEffects.CreateStartEffect | server/services/dashboardDeploymentPlans.ts:457-472 | a plan is begun only for a request that no stored plan has |
| DeploymentEffects.CreateFinishEffect | server/services/dashboardDeploymentPlans.ts:473-480 | and is stored as inspected, with its run completed, while there are fewer than 500 |
| DeploymentRevisions.RunAdvances | server/services/dashboardDeploymentPlans.ts:481-627 | over whole runs no plan is lost and no revision goes back |
| DeploymentRevisions.RecheckRevokes | server/services/dashboardDeploymentPlans.ts:487-500 | once a recheck has begun, no request approved at that revision or before is dispatched, also after a crash during the recheck |
| DeploymentRevisions.WaitingOperationsAreCurrent | server/services/dashboardDeploymentPlans.ts:62-66 | while an operation waits it alone holds its lock, and the version it will save from is the one stored |
| RequestIdentity.TrimIsIdempotent | shared/dashboardSafeCopyContract.ts:151-154 | trimming twice is trimming once |
| RequestIdentity.TrimExactly | shared/dashboardSafeCopyContract.ts:151-154 | trimming takes the space at both ends and nothing else |
| RequestIdentity.CapitalsAreRead | shared/dashboardSafeCopyContract.ts:454-457 | an identity is read in any letter case and with any space around it |
| RequestIdentity.UuidIsPlain | shared/dashboardSafeCopyContract.ts:454-457 | a canonical identity has nothing left to trim or to lower |
| RequestIdentity.CanonicalIsFixed | shared/dashboardSafeCopyContract.ts:454-457 | a stored request identity is its own canonical spelling |
| Base64.IsCanonicalBase64 | server/handlers/manage-ai.ts:199-225 | the loop accepts exactly the texts that the declarative form recognises: length, alphabet, padding and zero pad bits |
| Base64.RecognisedIffEncoding | server/handlers/manage-ai.ts:199-225 | a text is accepted exactly when it is the encoding of some non-empty byte string by section 4 of RFC 4648 |
| Base64.EncodeIsInjective | server/handlers/manage-ai.ts:199-225 | that byte string is unique |
| Base64.EncodingDecodes | server/handlers/manage-ai.ts:227-231 | decoding an encoding gives the bytes back |
| Base64.DecodingEncodes | server/handlers/manage-ai.ts:199-231 | encoding what an accepted text decodes to gives the text back |
| Base64.DecodedByteLength | server/handlers/manage-ai.ts:227-231 | the computed length is the number of bytes encoded, and is given exactly for accepted texts |
| Base64.AcceptSizes | server/handlers/manage-ai.ts:257-297 | attachments pass the size accounting exactly when there are at most five, each is canonical, each image is within 3 MiB, and all together are within 15 MiB; the sum is then the total of the decoded lengths |
| Base64.EncodesTestVectors | server/handlers/manage-ai.ts:199-225 | the encoding passes the test vectors of section 10 of RFC 4648 |
| CivilDate.DateFromDay | shared/topicMigrationBranchNames.ts:5-11 | every day number is the day of a civil date |
| CivilDate.DatesAreDays | shared/topicMigrationBranchNames.ts:5-11 | and of only one: days and civil dates correspond one to one (section 21.4.1 of ECMA-262) |
| IsoTime.MomentOf | shared/topicMigrationBranchNames.ts:24-28 | every time value is the time of a moment |
| IsoTime.MomentsAreTimes | shared/topicMigrationBranchNames.ts:24-28 | and of only one |
| IsoTime.RoundTripIffPrinted | shared/topicMigrationBranchNames.ts:8-10 | a shaped text survives parsing and printing exactly when it prints a real moment of years 0 to 9999, whatever else the date parser accepts |
| BranchNames.MatchSpells | shared/topicMigrationBranchNames.ts:3-6 | the pattern with its groups matches only texts that its groups spell |
| BranchNames.RecognisesExactlyNames | shared/topicMigrationBranchNames.ts:5-11 | the timestamp form is accepted exactly for printings of real civil times, alone or with an ordinal of 2 to 99999 |
| BranchNames.NameDetermines | shared/topicMigrationBranchNames.ts:24-35 | a name determines its creation time and its ordinal |
| BranchNames.PlansOfName | shared/topicMigrationBranchNames.ts:14-21 | historical and dated names are disjoint; a dated name is good for every plan, a historical one for at most the plan it spells, and for none when its prefix is written in capitals |
| BranchNames.CapitalsBelongToNoPlan | shared/topicMigrationBranchNames.ts:7-21 | for every UUID of version 4: the historical name with its prefix in capitals is recognised and belongs to no plan |
| BranchNames.CreateName | shared/topicMigrationBranchNames.ts:24-35 | creation fails exactly outside the valid times or when all 1,000 candidates are taken, which needs at least 1,000 different names; otherwise the result is the first candidate that equals no occupied name ignoring case |
| BranchNames.SomeCandidateIsFree | shared/topicMigrationBranchNames.ts:28-34 | fewer than 1,000 occupied names leave a candidate free |
| BranchNames.CreatedNamesAreRecognised | shared/topicMigrationBranchNames.ts:24-35 | every candidate is accepted by the recogniser and names its creation time and no other |
| BranchNames.TimesOfNames | shared/topicMigrationBranchNames.ts:25-25 | the bounds on creation times are exactly the years 1970 to 9999 |
| TextOrder.BeforeExactly | shared/dashboardSafeCopyContract.ts:119-122 | a text comes before another exactly when it is a proper start of it, or has the lesser character where they differ first |
| TextOrder.SortedIsIncreasing | shared/dashboardSafeCopyContract.ts:119-122 | sorting and removing repetitions yields a strictly increasing list of the same texts |
| TextOrder.IncreasingIsUnique | shared/dashboardSafeCopyContract.ts:119-122 | a set of texts has one such list |
| IntentValues.BoundedAgain | shared/dashboardSafeCopyContract.ts:146-162 | a stored identifier parses to itself |
| IntentBindings.BindingsAgain | shared/dashboardSafeCopyContract.ts:224-234 | parsed bindings, written and parsed again, are the same list in the same order |
| IntentBindings.BindingAgain | shared/dashboardPackageBindings.ts:26-30 | a parsed binding is again a binding, and the same one |
| IntentMappings.CheckMappingList | shared/dashboardSafeCopyContract.ts:246-269 | the check of content-only mappings fails at the first entry that is malformed or repeats a source name |
| IntentMappings.MappingAgain | shared/dashboardSafeCopyContract.ts:271-288 | a mapping parses to itself exactly when it has a target name or no source name |
| IntentMappings.WhenSettled | shared/dashboardSafeCopyContract.ts:274-278 | the input condition: no target name that is not falsy and prints as nothing, unless the source name does too |
| IntentMappings.EmptyListIsNotSettled | shared/dashboardSafeCopyContract.ts:271-279 | an empty list as target name breaks it |
| IntentMappings.CheckedMappingsAgain | shared/dashboardSafeCopyContract.ts:246-288 | content-only mappings always parse to themselves |
| IntentDestination.DestinationAgain | shared/dashboardSafeCopyContract.ts:205-290 | a destination written and parsed again is the same exactly when its mappings are settled, and always in a content-only request |
| IntentSource.ParsedSourceIsCanonical | shared/dashboardSafeCopyContract.ts:184-203 | a parsed source has trimmed identifiers and each document once, in order |
| IntentSource.CanonicalSourceReads | shared/dashboardSafeCopyContract.ts:184-203 | and parses to itself |
| IntentSource.DocumentsInAnyOrder | shared/dashboardSafeCopyContract.ts:184-203 | another order or repetition of the documents, within the limit, parses to the same source |
| IntentDestinations.GatherDestinations | shared/dashboardSafeCopyContract.ts:314-328 | the loop over destinations keeps the first of each target and fails at the first error or conflict |
| IntentDestinations.GatheredHolds | shared/dashboardSafeCopyContract.ts:314-328 | what is gathered is, target by target, what the items parse to |
| IntentDestinations.DestinationsInAnyOrder | shared/dashboardSafeCopyContract.ts:307-355 | another order or repetition of the destinations, within the limit, parses to the same list |
| IntentDestinations.ParsedDestinations | shared/dashboardSafeCopyContract.ts:307-355 | a parsed list has increasing targets and distinct model scopes |
| IntentDestinations.ListReadsBack | shared/dashboardSafeCopyContract.ts:307-355 | a list parses to itself exactly when each destination does |
| IntentEvidence.HashesCoverExactly | shared/dashboardSafeCopyContract.ts:365-376 | accepted hashes are for exactly the ids asked for: no key is missing and none is left over |
| IntentEvidence.CoversScope | shared/dashboardSafeCopyContract.ts:365-376 | accepted hashes cover exactly the documents and the targets of the request |
| IntentEvidence.DeploymentAgain | shared/dashboardSafeCopyContract.ts:357-444 | accepted evidence parses to itself |
| IntentEvidence.NarrowedDeploymentReads | shared/dashboardSafeCopyContract.ts:515-527 | evidence narrowed to some targets is accepted unchanged for the narrower scope |
| IntentSettling.ParsingIsIdempotentIffTargetsNamed | shared/dashboardSafeCopyContract.ts:446-491 | for every body that parses: parsing its intent again changes nothing exactly when in every mapping of every destination a target name that is not falsy prints as something or the source name prints as nothing; the bodies of content-only requests are all like that |
| IntentSettling.EmptyNameIsNotReadBack | shared/dashboardSafeCopyContract.ts:271-291 | one whole request that parses, and whose intent parses to something else |
| Intent.FixedIffSettled | shared/dashboardSafeCopyContract.ts:446-491 | the same condition put on the mappings of the parsed intent |
| Intent.FixedIffCanonical | shared/dashboardSafeCopyContract.ts:446-508 | the intents that the parser leaves alone are exactly those whose parts are canonical; what a body must have for its intent to be one is `BodyParses.ParsesExactly` |
| BodyParses.ParsesExactly | shared/dashboardSafeCopyContract.ts:446-508 | a body parses exactly when its fields are as they have to be, told by its JSON alone: allowed keys, names, limits, distinct targets and scopes, evidence for exactly these documents and targets, a package wherever a deployment chooses databases or schemas, no destructive option in a content-only request |
| BodyParses.ChoicesAreApproved | shared/dashboardSafeCopyContract.ts:461-469 | so a request that is no plan and lists a binding has deployment evidence with a package of version 1 that both confirmations approve, and a deployment has only options that are false |
| BodyValues.RequestSays | shared/dashboardSafeCopyContract.ts:446-508 | and what it is parsed to says what the fields say, part by part: identity, source, destinations with their bindings and mappings, evidence, options |
| BodyValues.DestinationSays | shared/dashboardSafeCopyContract.ts:205-290 | every field of a parsed destination comes from the field of its item of that name |
| BodyValues.EvidenceSays | shared/dashboardSafeCopyContract.ts:357-444 | parsed evidence holds the hashes of the body under their own ids |
| BodyFields.SourceExactly | shared/dashboardSafeCopyContract.ts:184-203 | which sources are accepted, and what documents they name |
| BodyFields.DestinationExactly | shared/dashboardSafeCopyContract.ts:205-290 | which destination items are accepted |
| BodyFields.MappingsExactly | shared/dashboardSafeCopyContract.ts:246-288 | which lists of mappings are accepted, with and without the check of content-only requests |
| BodyFields.BindingsExactly | shared/dashboardPackageBindings.ts:21-30 | which lists of bindings are accepted |
| BodyEvidence.EvidenceExactly | shared/dashboardSafeCopyContract.ts:357-444 | which evidence is accepted for given documents and targets |
| BodyParses.DestinationsExactly | shared/dashboardSafeCopyContract.ts:307-355 | which lists of destinations are accepted: items of one target that say the same, and different model scopes for different targets |
| IntentIdentity.SameIdentityIffSameButOptions | shared/dashboardSafeCopyContract.ts:530-539 | two canonical requests print the same identity exactly when they differ in their options at most |
| IntentIdentity.SameIdentityIffReadAlike | shared/dashboardSafeCopyContract.ts:530-539 | any two intents that have an identity have the same one exactly when they are read as requests that differ in their options at most |
| IntentIdentity.SecondReadingIsFixed | shared/dashboardSafeCopyContract.ts:530-539 | an intent that is written and read is canonical, whatever it was before: every name is then a text |
| IntentIdentity.IdentityDeterminesIffEvidence | shared/dashboardSafeCopyContract.ts:530-539 | the identity tells the whole request exactly when the request has deployment evidence |
| IntentNarrowing.OrderIsNoPartOfIntent | shared/dashboardSafeCopyContract.ts:184-355 | two bodies that differ in order and repetition of documents and destinations are both refused or give the same intent |
| IntentNarrowing.NarrowedIsCanonicalIffNotEmpty | shared/dashboardSafeCopyContract.ts:510-528 | a canonical intent narrowed to some targets is canonical exactly when it keeps a destination |
| IntentNarrowing.NarrowTwice | shared/dashboardSafeCopyContract.ts:510-528 | narrowing twice is narrowing to the intersection |
| IntentNarrowing.NarrowedSays | shared/dashboardSafeCopyContract.ts:510-528 | narrowing keeps just the destinations asked for, and of the evidence drops only the model hashes and fingerprints of the others |
| RecordTally.TakeRows | server/services/adminReadiness.ts:732-745 | the loop over the rows of a page computes the tally |
| RecordTally.SummaryIsSumOfAccepted | server/services/adminReadiness.ts:732-745 | the summary is the sum over exactly the accepted records, which have different keys; `included` is their number |
| RecordTally.NothingExcluded | server/services/adminReadiness.ts:732-745 | nothing is excluded exactly when every record has a key of its own and none is refused |
| RecordTally.ExclusionsExactly | server/services/adminReadiness.ts:732-745 | a record is reported invalid exactly when one has no key, or is refused and the first with its key; and repeated exactly when one has the key of an earlier one, also of a refused one |
| RecordTally.CountsExactly | server/services/adminReadiness.ts:732-745 | a record counts exactly when it is neither |
| PageTally.CountedGrows | server/services/adminReadiness.ts:727-745 | reading one more page counts its rows once and notes a changed total for good |
| PageTally.TotalIsLargest | server/services/adminReadiness.ts:727-731 | the total of a collection is the largest that a page claims |
| ScimCollection.CollectScim | server/services/adminReadiness.ts:703-776 | the pages read, the reason for stopping and the exclusions are exactly those of the loop; `included` never exceeds `total`; `complete` holds exactly when the pages answer in order, agree on one total, hold exactly that many rows, all under different keys and none refused, and exactly when there is no exclusion; the exclusion for an early end is never raised |
| ScimEnds.ReadExactly | server/services/adminReadiness.ts:711-755 | reading is determined: it gives exactly the pages that answer one request after the other, of which only the last completes the count, and the reason that then holds: enough rows, the page limit, a page elsewhere, or a request that fails, with its code |
| ScimEnds.PageIsShown | server/services/adminReadiness.ts:675-701 | a page is parsed exactly from a response of objects only, as many as it says and at most 100, inside the list, and none only when the list is empty |
| ScimCollection.PageIsInside | server/services/adminReadiness.ts:675-701 | a parsed page lies within the positions of its list (section 3.4.2.4 of RFC 7644) |
| ScimCollection.PositionIsRead | server/services/adminReadiness.ts:711-755 | every position up to the rows read is on a page that holds that row |
| ScimCollection.PositionIsReadOnce | server/services/adminReadiness.ts:711-755 | and on no other page |
| CursorCollection.CollectCursor | server/services/adminReadiness.ts:588-666 | the pages read, the reason for stopping and the exclusions are exactly those of the loop; `complete` holds exactly when the last page was reached, every page claims one total, and exactly that many rows were accepted under different keys; no cursor is followed twice |
| CursorEnds.ReadExactly | server/services/adminReadiness.ts:588-666 | reading is determined: it gives exactly the pages that answer one request after the other, each under the cursor of the one before, and the reason why the last has no successor: no next page, the page limit, a cursor followed before, or a request that fails, with its code |
| CursorEnds.PageIsShown | server/services/adminReadiness.ts:551-586 | a page is parsed exactly from a response of objects only that fit a page of at most 100 and the total, none only in an empty collection, with a cursor exactly when there is a next page |
| ReadinessAggregates.UserReadiness | server/services/adminReadiness.ts:1043-1088 | the parts of the user aggregate sum to `included`; ready is reported exactly for a list read to its end, not empty, with every state known |
| ReadinessAggregates.UsersAddUp | server/services/adminReadiness.ts:1035-1041 | each part counts the users of its status |
| ReadinessAggregates.TokenReadiness | server/services/adminReadiness.ts:859-904 | the summary is the sum over the accepted tokens; ready exactly for a reconciled list that is not empty |
| ReadinessAggregates.TokensAddUp | server/services/adminReadiness.ts:859-880 | each part counts the tokens of its kind or state; kinds and states each add up to the number of tokens |
| ReadinessAggregates.ScheduleReadiness | server/services/adminReadiness.ts:1391-1430 | delivery parts sum to `included`; ready exactly for a reconciled list without disabled, failed or unknown schedules |
| ReadinessAggregates.SchedulesAddUp | server/services/adminReadiness.ts:1360-1389 | each part counts the schedules of its delivery status or activity; delivery parts add up to the number of schedules, activity parts exceed it by those both paused and disabled |
| ReadinessAggregates.LatestIsGreatest | server/services/adminReadiness.ts:1352-1387 | the latest observation is the greatest printed time as a text; when some time is of a year of four digits, it shows the greatest time exactly when none is of a later year |
| LatestDelivery.LatestMayBeEarlier | server/services/adminReadiness.ts:1385-1387 | a time of year 10000 or later gives way to any of a year of four digits |
| IsoOrder.TextOrderIsTimeOrder | server/services/adminReadiness.ts:1357-1386 | printed times of four-digit years compare as texts exactly as the times do |
| InventoryIds.IdCollector.CollectIds | server/handlers/list-folders.ts:48-70 | the recursive collector updates one shared set, stopping at the first malformed or repeated record |
| InventoryIds.CollectsExactlyDistinctIds | server/handlers/list-folders.ts:48-70 | collecting succeeds exactly when all records at every level are well formed and all identities are new and different, and adds exactly those |
| InventoryPages.ReadInventory | server/handlers/list-documents.ts:232-352 | the pages read and every refusal are exactly those of the loop; loaded identities are distinct over all pages and levels; totals follow one of two modes that exclude each other from the second page on; no cursor is sent twice; `complete` holds exactly when the read began at the beginning and reached the end, and then the loaded count is the first total |
| InventoryPages.ReadPages | server/handlers/list-folders.ts:197-318 | the loop over pages, with its one collector of identities, its totals and its cursors, does what the specification says |
| InventoryEnds.ReadIsEnded | server/handlers/list-documents.ts:232-366 | the pages that are read answer one request after the other, fit one mode of totals and have well-formed records with distinct identities; the first end there is ends the read: the last page, one page asked for, 50 pages, a cursor sent before, or the first refusal of the next page, in the order of the checks; the listing is all records unless a whole read found more or fewer than were claimed |
| InventoryEnds.PageIsShown | server/handlers/list-documents.ts:62-110 | a page is parsed exactly from a response whose records fit the page and the total, with a cursor that is not blank exactly when there is a next page |
| InventoryPages.ModesExclude | server/handlers/list-documents.ts:312-331 | stable and remaining totals cannot both hold once there is a second page |
| InventoryPages.CollectInTurn | server/handlers/list-folders.ts:273-306 | collecting page after page is collecting all records at once |
| ReadinessCache.ReportCache.Prune | server/services/adminReadiness.ts:1631-1635 | exactly the entries past their stale deadline are dropped |
| ReadinessCache.ReportCache.CacheReport | server/services/adminReadiness.ts:1637-1648 | the entry of the key is replaced, then the oldest entries make room |
| ReadinessCache.StoredIsBounded | server/services/adminReadiness.ts:1637-1648 | storing keeps one entry a key and at most 200, and adds nothing but the new entry |
| ReadinessCache.StoredDropsOldest | server/services/adminReadiness.ts:1637-1648 | where there is no room the oldest entries go, as many as leave 200 with the new one, which comes last |
| ReadinessCache.GivesWayExactly | server/services/adminReadiness.ts:1594-1608 | a refresh gives way to the earlier report exactly when that had something available, and the refresh tried to read something and all it tried failed or was unavailable |
| ReadinessCache.StaleReportClaimsNothing | server/services/adminReadiness.ts:1610-1629 | a stale report turns exactly the live evidence that was available into stale evidence, keeps its time, and says that it comes from the cache |
| ReadinessRequests.RunKeepsInv | server/services/adminReadiness.ts:1671-1717 | the invariant of cache, builds and answers holds in every interleaving of requests |
| ReadinessEffects.FallsBackExactly | server/services/adminReadiness.ts:1693-1709 | a build falls back to the entry its leader found exactly when that may still be used at the leader’s clock, and the build threw or read a report that gives way to it; it fails exactly when it threw and there is no such entry; otherwise it ends with what it read |
| ReadinessEffects.AskEffect | server/services/adminReadiness.ts:1671-1692 | a request is given the entry of its key while that is fresh, otherwise the build of its key under way, otherwise a build of its own; the cache loses just what is past its deadline |
| ReadinessEffects.FinishEffect | server/services/adminReadiness.ts:1693-1709 | a build that ends with a report stores it under deadlines counted from its leader’s clock; any other end stores nothing |
| ReadinessEffects.ReportIsServedNext | server/services/adminReadiness.ts:1671-1703 | what a build has read is what the next request of the key is given while it is fresh |
| ReadinessEffects.FailureIsTriedAgain | server/services/adminReadiness.ts:1677-1717 | after a build that failed, the next request of the key starts another |
| ReadinessRequests.OneBuildPerKey | server/services/adminReadiness.ts:1677-1717 | at most one build a key is under way |
| ReadinessRequests.CacheIsBounded | server/services/adminReadiness.ts:1637-1648 | the cache never has more than 200 entries, nor two of a key |
| ReadinessRequests.StaleIsWithinDeadline | server/services/adminReadiness.ts:1693-1709 | a stale answer repeats what an earlier build read, and at the clock of its leader that build’s deadline has not passed |
| ReadinessRequests.CachedIsFresh | server/services/adminReadiness.ts:1675-1676 | an answer from the cache is within the fresh time of the build that read it |
| ReadinessRequests.DeadlinesNeverMove | server/services/adminReadiness.ts:1693-1706 | no step moves a deadline: serving a stale report never extends it |
| ReadinessRequests.FollowerMayBeLate | server/services/adminReadiness.ts:1677-1681 | a request that joins a build may be given a report past the deadline at its own clock |
| ReadinessFollowers.FoundIsServedInTime | server/services/adminReadiness.ts:1671-1681 | in every run: a request that found an entry of its key and is given a stale report is given that entry, within the deadline at the request's own clock |
| ReadinessFollowers.FollowerIsLateIffNothingFound | server/services/adminReadiness.ts:1671-1681 | in every run whose clocks do not go back and whose cache has room, a request that found nothing and is given a stale report is given it past the deadline at its own clock, and only such a request is |
| MigrateRewrite.WalkAt | server/handlers/migrate.ts:425-467 | mapping and folder replacement, position by position |
| MigrateRewrite.ReplaceAt | server/handlers/migrate.ts:174-197 | forced replacement, position by position, and nothing below the depth it reaches |
| MigrateRewrite.RewriteAt | server/handlers/migrate.ts:858-878 | outside the overwritten top-level fields, exactly the positions there were are there, each with the value that mapping, folder and depth make of the old one |
| MigrateRewrite.LeafBecomes | server/handlers/migrate.ts:174-197 | that value, for every leaf: only texts under model and folder keys change; a model id is mapped, and within depth 10 replaced by the target unless it is the target or something that a model is mapped to |
| MigrateRewrite.OverwrittenHolds | server/handlers/migrate.ts:585-590 | an overwritten field holds the folder or the target model, and nothing of what was below it remains |
| MigrateRewrite.TopLevelStays | server/handlers/migrate.ts:135-147 | an object gains at most `baseModelId` and `filePath`, just when it has no usable model id of its own and when a requested folder found no folder text |
| MigrateRewrite.ModelIdsAreAllowed | server/handlers/migrate.ts:872-878 | every model id that is not empty within depth 10 is the target or something a model is mapped to |
| MigrateRewrite.FolderTextsAreFolder | server/handlers/migrate.ts:866-870 | when a folder is requested, every folder text at any depth is that folder |
| MigrateRewrite.TopLevelModelIsAllowed | server/handlers/migrate.ts:135-172 | an object rewritten for a model has a model id at its top level, which is the target or something that a model is mapped to |
| MigrateRewrite.FolderTextIsFound | server/handlers/migrate.ts:441-451 | a folder text at any depth is found |
| MigrateRewrite.FoundFolderText | server/handlers/migrate.ts:866-867 | and a folder is put at the top level only if there is none |
| WorkerPool.RunKeepsInv | server/handlers/instances.ts:697-720 | the invariant of counter, workers and output holds in every interleaving, with errors and aborts |
| WorkerPool.ClaimsAreInOrder | server/handlers/instances.ts:706-711 | each index is claimed once, in order |
| WorkerPool.AtMostLimitInFlight | server/handlers/instances.ts:715-718 | at most the limit of values are in flight, one at least |
| WorkerPool.LimitIsReached | server/handlers/instances.ts:715-718 | and some run has that many in flight, or all values if they are fewer |
| WorkerPool.FailsIffSomeStepFails | server/handlers/instances.ts:700-720 | a worker has ended by an error exactly when the request was aborted at some claim or some mapping failed |
| WorkerPool.OutputIsSequentialMap | server/handlers/instances.ts:705-719 | when all workers return, the output is the sequential map in input order |
| InventoryIndex.BuildInventory | server/handlers/instances.ts:140-174 | the index has a group for each connection of a dashboard and no other; documents are dashboards or counted as missing evidence |
| InventoryIndex.LookupIsFilter | server/handlers/instances.ts:176-185 | looking a connection up is filtering the documents by it |
| InventoryIndex.GroupsPartition | server/handlers/instances.ts:150-165 | no dashboard is lost or in two groups |
| InventoryIndex.DashboardsInTurn | server/handlers/instances.ts:140-165 | dashboards and groups keep the order of the documents |

## Left out

- Network, file system, streaming, abort signals and timeouts: an await is a point where other steps may run, and
  what a read returns is arbitrary.
- YAML texts: a file is the map of its definitions, so formatting, comments and the reasons of a merge error are
  not modelled; two texts are equal when their definitions are.
- Hashes: evidence is compared by values that stand for their hashes.
- Package inputs before the fold (reading dashboards, local layers of a tile, dialects, folders) and the search for
  a tile's files inside the planner: a tile comes with its files and with whether that search raised an issue.
- Approved database and schema bindings inside a package, and the entry for model-wide settings: the first change
  what is merged, the second never changes a projected text.
- PackageOrder.VerdictIgnoresOrderIffLastsAgree: is stated, like all that follows from it, for names that are of one
  class when they differ in case only; `VerdictNeedsLaw` shows that the verdict depends on the order otherwise. A tile
  needs each source file once, as its files are the keys of a map.
- DeploymentProtocol: the plan store and the ledger are values, not a file and a class; saving is atomic as renaming
  a file is. Findings, progress reports and times in a plan are not modelled, and a repair submission may link any
  job, which allows more than the code does.
- DeploymentTheorems.AtMostOneJob: assumes, as the code does, that ledger entries are not cleared while plans refer to
  them and that deployment jobs enter only through plans.
- JoinSearch.Search: counts ways without bound; the code counts in double precision, which is exact up to 2^53.
- FieldWorklist.Worklist.VisitFields: findings about definitions that differ are not modelled, only the references
  and the errors that end the inspection.
- DependencyClosure: parsing of definitions and aliases is given by the catalog of a field's references, in the order
  in which the scan meets them.
- IntentDestination, IntentEvidence: objects are maps, so the order of keys, which decides between error codes when
  several entries are wrong and which the printed identity keeps inside namespaces, is not modelled; numbers are integers.
- DependencyClosure.FieldClosure.PlanFields: gives the error of every failing root; the code lists findings that are equal
  in code, reference and message once.
- BodyParses.ParsesExactly: says which bodies are refused, not with which code; the code is that of the first check that
  fails in the order of the parser.
- DependencyCycles.SomeOrderReportsIffClosing: takes all fields as roots; for roots that are only some of them, the
  orders of these roots may report nothing although a cycle can be reached (`CycleErrorIsReferenceCycle` and
  `ClosingRootReports` hold for any roots).
- ReadinessFollowers.FollowerIsLateIffNothingFound: assumes a cache with room, as a full one may evict an entry in time,
  and clocks that do not go back; `FoundIsServedInTime` assumes neither.
- TextOrder.SortedIsIncreasing, IntentValues.BoundedAgain: order and length go by the characters of the model, which are
  code points; the code compares and counts UTF-16 units, which differ outside the basic plane.
- BranchNames.CreateName: times that are no integers, which the code refuses as well, are not among the inputs.
- InventoryPages.ReadInventory: documents and folders share one loop in the model, as their two loops are the same;
  the checks of single fields are one flag of a record.
- CursorCollection.CollectCursor: `included` may exceed `total` here, as no position bounds it; then the result is
  never complete.
- MigrateRewrite: the rewriting passes build new trees instead of changing one in place; the tree they work on is
  fresh and shared with nobody, so nothing else could see the difference. Counts for diagnostics, names that objects
  inherit, and the injection before the rewrite are not modelled.
- WorkerPool: the pool of the readiness report has the same form, except that its counter stops at the end, and is
  not modelled apart.
- ReadinessRequests: clearing the cache is for tests only.
- Redaction, prompt checks, URL checks, bulk handlers, pages and build scripts: many branches, no deep invariant.

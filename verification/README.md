# Site Pipeline: a verified model

Site Pipeline stages a site from owned units, republishes the stage incrementally while it watches the inputs, and
checks routes, redirects, licences, links and translations before it does so. This project models that logic in Dafny
and proves what it is for. The question throughout is agreement: does the fast form (the incremental build, the binary
search, the two-pointer sweep, the bounded count) give what the plain form gives, does the second index agree with the
first, and does what is visible always agree with what is trusted?

| part | modules |
|---|---|
| paths, orders, plans | `Options`, `Sorting`, `Paths`, `Plan`, `PlanExamples` |
| owned units and their validation | `Ownership` |
| one staging run, manifests as sets, and what a finished stage says | `Staging`, `Manifests`, `PageTranslations`, `PageSources`, `StageMetadata` |
| incremental build against full build | `IncrementalBuild`, `IncrementalRefinement`, `IncrementalSafety` |
| changed paths, the units they make dirty, and what units are made from | `DirtyPaths`, `UnitSources` |
| stage swap and replacement guard | `StagePublication`, `ReplacementGuard` |
| whole watch runs, from edit logs to safety, what failures leave, and the hand-over between watchers | `WatchRun`, `WatchGuard`, `WatchEdits`, `WatchFailures`, `WatchHandoff`, `WatchConvergence`, `WatchExamples` |
| routes and redirects, evaluated and staged | `Routes`, `RouteValidation`, `RouteCollisions`, `ContextPaths`, `TargetMeaning`, `RedirectLoops`, `RedirectIndex`, `RedirectAgreement`, `RedirectResolution`, `RedirectExamples` |
| parents of release lines | `ReleaseLines` |
| parsers, scanners, orders | `SpdxPolicy`, `SpdxVerdicts`, `PublicPaths`, `SourceLocator`, `LinkScanner`, `VersionOrder` |
| transactions, bounded traversal, validators | `RoqSync`, `WatchLimits`, `Localization` |

Code that changes state is a method or a class proved against a specification function, and the results are lemmas
about those functions. A tree maps file paths to files; directories exist as prefixes of files. What a unit worker
produces is an abstract function from the current inputs to files under the unit's roots; only component units
contribute pages, and only pages of their own component, as the workers do. Case folding is a map on
characters that keeps slashes apart, and lower-casing of routes is an arbitrary function. Failing renames, events,
edits and stop requests are parameters, so every result holds for all of them.

## What turned out to be conditional

Several properties one would expect hold only under a condition. Each is stated as an equivalence, with the exception shown.

- An incremental build equals the full build exactly when no retained file lies under a removed root, and even then the
  content index and the unit contributions may list their entries in another order, because retained manifests come
  first (`IncrementalBuildIsExact`, `ManifestOrderDiffers`). The units `site-assets` and `vendor-assets` share an owner
  and nest, so rebuilding the first alone loses the files of the second (`VendoredFileLost`).
  In general it shows the full build exactly when, besides, the files of every unit it leaves alone are unchanged
  (`StalenessIsExact`).
- A changed path makes dirty the first unit the scan finds a tested root of, whatever else it feeds
  (`AttributionIsExact`). So a path under both site inputs misses the site assets (`SharedInputIsMissed`), and the docs
  of an artifact whose source is another component's content source miss the component that stages them
  (`BorrowedDocsAreMissed`).
- A failed cycle forgets its dirty paths (`FailedCycleLosesChanges`, `FailedCycleIsExact`, `EditedLogoStaysStale`), so a
  session is safe as long as each cycle is told of all edits since the last success (`LoggedSessionIsSafe`). A failed
  rollback loses the stage for good (`LostStageStaysLost`), and a failed sync leaves a new tree with old trusted
  metadata, unless the two happen to agree (`AgreementIsExact`, `FailedSyncDisagrees`).
- A scan may read an edit whose event is still queued, and then the stage is not the full build of what the scan read
  (`RacingEditIsStale`). What always holds is that each unit is as it was when last rebuilt (`VisibleStageIsMixture`),
  and the full build is back whenever the loop waits with no event queued (`QuietWaitShowsFullBuild`).
- The replacement guard refuses a candidate in which an optional aggregate has become empty: once the last diagnostic is
  fixed, `data/diagnostics.json` disappears and the stage can no longer be replaced (`FixedDiagnosticsRefused`,
  `LastDiagnosticBlocks`, `FixedDiagnosticsCycleFails`).
- The translation links of a page are looked up by its identity, so a page that repeats the identity of another lists the
  translations of whichever is in the group that begins last (`FinishedPage`, `RepeatedIdentityBorrows`), and its own when
  no other page has its identity (`ListedTranslation`).
- Staging cannot resolve a redirect to the source of another redirect, which evaluation accepts, and resolves a component
  reference differently when the canonical path is published by a version context only (`ReferencesAgree`, `RedirectToRedirectFails`,
  `ContextOnlyCanonicalDiffers`).
- Comparing versions 1.0 and 1.0.0 raises a type error (`ComparisonIsExact`).
- Public-path normalization is idempotent for relative input exactly when the path does not climb above its start (`RelativeNormalization`).
- After a failed Roq publication the root whose own restore failed is missing from the reported failures (`UnreportedRoot`).
- An inline link destination that begins with white space other than blanks and tabs is located before the text it returns (`CandidateIsSlice`),
  and a link inside a label without a destination is passed over (`NestedLinkIsSkipped`).

## Model

| member | source | states |
|---|---|---|
| `Ownership.ValidateOutputOwnership` | src/buildish_site_pipeline/staging/ownership.py:179-220 | returns normally exactly when no two claims conflict, in whatever order they are listed; otherwise names a pair that does and whether it conflicts by case alone |
| `Ownership.ValidationIsExact` | src/buildish_site_pipeline/staging/ownership.py:179-220 | the string tests accept exactly the units whose roots, as case-folded segment paths, nest only within one owner and never collide by case alone |
| `Ownership.AtMostOneOwner` | src/buildish_site_pipeline/staging/ownership.py:179-220 | after validation every stage path lies, up to case, beneath the roots of at most one owner |
| `Ownership.FoldedRootsAllowed` | src/buildish_site_pipeline/staging/ownership.py:179-220 | on roots that case folding leaves alone, validation accepts exactly when roots of different owners do not nest |
| `Ownership.DedupKeepsRoots` | src/buildish_site_pipeline/staging/ownership.py:69-77 | deduplication keeps every root and leaves none twice |
| `Ownership.BuildOwnedUnits` | src/buildish_site_pipeline/staging/ownership.py:80-176 | yields the site, asset, vendor and component units of a plan, or an error exactly when a context has no publication or two claims conflict |
| `Ownership.UnitIdsDistinct` | src/buildish_site_pipeline/staging/ownership.py:80-176 | distinct component slugs give distinct unit identifiers |
| `Ownership.PlannedRootsAreStaged` | src/buildish_site_pipeline/staging/ownership.py:80-176 | every unit root lies under content or static and has no empty or slashed segment |
| `Ownership.StageRootStep` | src/buildish_site_pipeline/staging/publication_paths.py:49-53 | one more segment of a public path is one more segment of its stage root, unless it is empty or a dot |
| `Ownership.ContextRootsAreOwned` | src/buildish_site_pipeline/staging/ownership.py:118-174 | each selected version context has both of its stage roots in the unit of its component |
| `PlanExamples.HomePlanIsValid` | src/buildish_site_pipeline/planning/effective_config.py:320-362 | components that publish at their own mount paths with the default segments, version contexts included, have units validation accepts |
| `Paths.TextPrefixIsSegmentPrefix` | src/buildish_site_pipeline/staging/ownership.py:191-200 | on plain paths the string test with a trailing slash is the proper-prefix test on segments, and text equality is path equality |
| `Paths.FoldJoin` | src/buildish_site_pipeline/staging/ownership.py:184 | folding the text of a path folds its segments |
| `Staging.SeedNextStage` | src/buildish_site_pipeline/staging/coordinator.py:215-233 | removing the listed paths one by one, in any order, leaves the seed without everything at or beneath them |
| `Staging.RunOwnedUnits` | src/buildish_site_pipeline/staging/coordinator.py:179-212 | runs exactly the included units in order, a later file replacing an earlier one |
| `Staging.CollectInOrder` | src/buildish_site_pipeline/staging/coordinator.py:236-247 | pool results come out in the order of their specs, whatever order they complete in |
| `Staging.RegisterManifests` | src/buildish_site_pipeline/staging/aggregates.py:1301-1308 | fails exactly when two manifests name the same unit, and names the first unit that is repeated |
| `Staging.TranslationsByPage` | src/buildish_site_pipeline/staging/aggregates.py:192-224 | collects the links of every page group by group, in the order the groups begin; a page identity in several groups has the links of the last |
| `Staging.FinalizePages` | src/buildish_site_pipeline/staging/aggregates.py:171-189 | fails exactly when some contributed page is missing or has no URL, naming the first such page and which of the two; otherwise leaves each page with the last front matter written for it |
| `Staging.SetPipelineTwice` | src/buildish_site_pipeline/staging/front_matter.py:276-280 | finalizing a finalized page is finalizing it once |
| `Staging.RunBuild` | src/buildish_site_pipeline/staging/coordinator.py:71-106 | succeeds exactly when manifests are distinct and all their pages exist and have URLs, and then returns the finished stage; otherwise names the first repeated unit or the first page that cannot be finalized |
| `Staging.BuildOutputOwnershipMap` | src/buildish_site_pipeline/staging/incremental_metadata.py:181-212 | describes every unit root and every coordinator file, sorted |
| `PageTranslations.FinishedPage` | src/buildish_site_pipeline/staging/aggregates.py:171-224 | each page of a finished stage has the facts of its last contribution and the summary of its component, lists its translations, and is otherwise as its unit wrote it; of several contributions with its identity the one in the group that begins last determines the list |
| `PageTranslations.ListedTranslation` | src/buildish_site_pipeline/staging/aggregates.py:192-224 | a page whose identity is its own lists exactly the pages of the build with a public URL, its component, artifact and translation key, and another locale |
| `PageTranslations.RepeatedIdentityBorrows` | src/buildish_site_pipeline/staging/aggregates.py:192-224 | a page in no group that repeats the identity of a translated page lists the translations of that page |
| `PageTranslations.SortIsStable` | src/buildish_site_pipeline/staging/aggregates.py:213-217 | ordering a group by locale keeps the order of the build within each locale |
| `PageTranslations.OtherFilesStay` | src/buildish_site_pipeline/staging/aggregates.py:171-189 | a file no contribution names is staged as its unit wrote it |
| `PageTranslations.FinishedTranslations` | src/buildish_site_pipeline/staging/aggregates.py:883-916 | data/translations.json is written exactly when some page can be in a group, with one group for each key and all its pages ordered by locale |
| `PageSources.ShownSource` | src/buildish_site_pipeline/staging/public_safety.py:80-96 | which source path is shown for a page: inside the workspace relative to it, a relative one as it is unless it is empty or climbs, none otherwise |
| `PageSources.BoundSource` | src/buildish_site_pipeline/staging/aggregates.py:1345-1389 | a page has a place in a source binding exactly when its path, from the workspace if relative, is a path beneath the root of the binding |
| `StageMetadata.ClaimsAreOrdered` | src/buildish_site_pipeline/staging/incremental_metadata.py:204-211 | the ownership map is ordered by path, kind, owner and unit as text |
| `StageMetadata.FinishedMetadata` | src/buildish_site_pipeline/staging/incremental_metadata.py:215-228 | the dependency map names every unit in order and every aggregate written, the manifest every file of the coordinator but itself, and the content index the pages in order |
| `StageMetadata.IncompleteMetadataRebuildsAll` | src/buildish_site_pipeline/commands/watch.py:701-748 | a stage that does not expose all its incremental metadata, and only such a stage or a plan without units, leads to a full build |
| `StageMetadata.SeedRemovals` | src/buildish_site_pipeline/commands/watch.py:735-741 | the seed loses exactly the claims of the coordinator, of units that are gone and of units that are built again, and the paths nothing claims |
| `IncrementalBuild.OwnershipMapListed` | src/buildish_site_pipeline/staging/incremental_metadata.py:181-212 | a claim is in the map exactly when it is a root of a unit or a coordinator path |
| `IncrementalBuild.CoordinatorFilesClaimed` | src/buildish_site_pipeline/staging/incremental_metadata.py:289-330 | the coordinator claims exactly the files it writes, and none of them lies in a unit area |
| `IncrementalBuild.ClaimTestOnSegments` | src/buildish_site_pipeline/commands/watch.py:880-892 | the string test for claimed stage paths is comparability with some claim |
| `Manifests.GroupOfFlatten` | src/buildish_site_pipeline/staging/aggregates.py:192-224 | a translation group of the whole stage lies inside the manifest of its component |
| `Manifests.FinalizationIgnoresOrder` | src/buildish_site_pipeline/staging/aggregates.py:171-224 | final front matter, translation links included, does not depend on the order of the manifests |
| `Manifests.CoordinatorFilesAgree` | src/buildish_site_pipeline/staging/aggregates.py:226-345 | coordinator files of the same manifests agree up to the order of the two files that list them, and agree fully exactly when the orders agree |
| `IncrementalRefinement.RenormalizationIsExact` | src/buildish_site_pipeline/staging/aggregates.py:1267-1288 | for every page, normalizing it again changes nothing exactly when its source keeps a public form, or has none and the page had no provenance to lose |
| `IncrementalRefinement.WorkspaceManifestsAreStable` | src/buildish_site_pipeline/staging/aggregates.py:1267-1288 | sources inside the workspace and unchanged bindings make a manifest survive being normalized again |
| `IncrementalRefinement.NothingUnclaimed` | src/buildish_site_pipeline/commands/watch.py:849-877 | a stage this pipeline published has no unclaimed entry |
| `IncrementalRefinement.RemovalsCover` | src/buildish_site_pipeline/commands/watch.py:735-747 | the computed removals cover the coordinator's files and, among unit files, exactly those under dropped roots |
| `IncrementalRefinement.ManifestsRecombine` | src/buildish_site_pipeline/staging/aggregates.py:1225-1308 | retained and rebuilt manifests have disjoint units, so the duplicate check never fires, and are a permutation of the full build's |
| `IncrementalRefinement.CandidateKeys` | src/buildish_site_pipeline/commands/watch.py:701-748 | the incremental candidate holds exactly the rebuilt files and the retained files outside removed roots |
| `IncrementalRefinement.RetainedFileFinalizes` | src/buildish_site_pipeline/staging/front_matter.py:265-284 | finalizing a retained, already finalized file gives what finalizing a rebuilt one gives |
| `IncrementalRefinement.SafeIncrementalBuild` | src/buildish_site_pipeline/staging/coordinator.py:71-106 | with retained files safe, the incremental build succeeds exactly when the full build does and publishes a stage of the current inputs |
| `IncrementalRefinement.StagesAgreeUpToOrder` | src/buildish_site_pipeline/staging/aggregates.py:115-168 | two stages of one run agree up to manifest order, and are equal exactly when their manifests are listed alike |
| `IncrementalRefinement.IncrementalBuildIsExact` | src/buildish_site_pipeline/commands/watch.py:701-748 | an incremental build from a published stage succeeds and equals the full build, up to manifest order, if and only if no retained file lies under a removed root |
| `IncrementalRefinement.StalenessIsExact` | src/buildish_site_pipeline/commands/watch.py:701-748 | while clean units keep their manifests and file names, the incremental build shows the full build if and only if the files of every clean unit are unchanged and none lies under a removed root |
| `IncrementalSafety.ValidatedPlansAreSafe` | src/buildish_site_pipeline/staging/ownership.py:83-176 | for validated units of a plan retained files are safe when the two nested site roots are dropped together or not at all |
| `IncrementalSafety.DirtySiteAssetsLoseVendorFiles` | src/buildish_site_pipeline/staging/ownership.py:96-115 | rebuilding the site assets alone loses every vendored file |
| `IncrementalSafety.VendoredFileLost` | src/buildish_site_pipeline/staging/ownership.py:96-115 | for any vendored file there is a run in which nothing changed and the file is lost |
| `IncrementalSafety.ManifestOrderDiffers` | src/buildish_site_pipeline/staging/aggregates.py:1236-1264 | for any two components of a validated plan a safe incremental build differs from the full build in manifest order |
| `DirtyPaths.CoalesceDirtyPaths` | src/buildish_site_pipeline/commands/watch_events.py:224-237 | the result is free of ancestors, consists of collected paths and covers exactly what they cover |
| `DirtyPaths.CoalescedIsMinimal` | src/buildish_site_pipeline/commands/watch_events.py:224-237 | a path is kept exactly when it was collected and no proper ancestor was |
| `DirtyPaths.DirtyUnitIdsForPaths` | src/buildish_site_pipeline/commands/watch.py:751-818 | the scan with its early returns gives the union over all paths, or everything, independent of their order |
| `UnitSources.ConfigurationMakesAllDirty` | src/buildish_site_pipeline/commands/watch.py:776-780 | a change of the catalog or the provider snapshot makes every unit dirty |
| `UnitSources.ComponentSources` | src/buildish_site_pipeline/staging/spec_builder.py:217-228 | the unit of a component depends on exactly its metadata, pages and assets, the docs and assets of its version contexts, each in the directory of its kind and name, and the configuration |
| `UnitSources.SiteSources` | src/buildish_site_pipeline/staging/spec_builder.py:42-95 | each site unit depends on its own input and the configuration only |
| `DirtyPaths.AttributionIsExact` | src/buildish_site_pipeline/commands/watch.py:781-818 | a changed path dirties every unit it feeds if and only if it is a configuration file, or lies in the site or workspace and no current unit holds it first, or feeds no current unit but the one that holds it first |
| `DirtyPaths.DirtyUnitsAreComplete` | src/buildish_site_pipeline/commands/watch.py:751-837 | when no root tested for one unit meets what another reads (its own sources, those of its version contexts, the configuration), dirty paths that cover a change include every unit it feeds |
| `DirtyPaths.HolderHoldsFirst` | src/buildish_site_pipeline/commands/watch.py:781-837 | the guards of the scan settle on the first unit, in the order of the scan, one of whose tested roots holds the path |
| `DirtyPaths.SharedInputIsMissed` | src/buildish_site_pipeline/commands/watch.py:786-804 | a change under both site inputs leaves the site assets clean |
| `DirtyPaths.BorrowedDocsAreMissed` | src/buildish_site_pipeline/staging/spec_builder.py:170-227 | in a validated plan, docs of an artifact may lie in another component's content source: a change there dirties that component and not the one that stages them |
| `StagePublication.PublicationArea.ReplaceStageRoot` | src/buildish_site_pipeline/staging/publication.py:307-346 | every outcome with the tree it leaves visible; success shows the candidate, a retained stage is the old tree, and at each step the old tree is whole or the new one in place unless the rollback fails |
| `StagePublication.SwapIsTransaction` | src/buildish_site_pipeline/staging/publication.py:318-346 | success means the candidate and any error the old tree, exactly when neither the rollback nor the sync after the swap fails |
| `StagePublication.FailedRollbackLosesStage` | src/buildish_site_pipeline/staging/publication.py:324-340 | after a failed rollback nothing is visible and the backup is gone |
| `StagePublication.UnitOwnershipOnSegments` | src/buildish_site_pipeline/staging/publication.py:241-255 | the string test for unit-owned paths is equality with a claim or comparability with a claimed directory |
| `StagePublication.GuardIsExact` | src/buildish_site_pipeline/staging/publication.py:172-255 | replacement is accepted exactly when every vanishing path belongs to a unit claim and no surviving path changes kind |
| `ReplacementGuard.GuardOnPublishedStage` | src/buildish_site_pipeline/staging/publication.py:172-255 | over a published stage it is refused exactly when a kind changes or a path vanishes that is unclaimed or the coordinator's, whatever else the directory holds |
| `ReplacementGuard.GuardMeetsSelection` | src/buildish_site_pipeline/staging/publication.py:172-255 | with unchanged kinds it is accepted if and only if every file the coordinator wrote into the old stage is in the candidate |
| `ReplacementGuard.IncrementalReplacement` | src/buildish_site_pipeline/commands/watch.py:735-747 | an incrementally selected candidate is refused exactly when an optional aggregate of the old stage has nothing to hold any more |
| `ReplacementGuard.FixedDiagnosticsRefused` | src/buildish_site_pipeline/staging/aggregates.py:311-315 | a stage with diagnostics cannot be replaced by one without |
| `ReplacementGuard.LastDiagnosticBlocks` | src/buildish_site_pipeline/staging/aggregates.py:311-315 | two concrete runs with all the usual aggregates: the last diagnostic is fixed, the incremental build succeeds, and the guard refuses its result |
| `ReplacementGuard.GrowingStageAccepted` | src/buildish_site_pipeline/staging/publication.py:172-255 | a candidate that keeps every file and the kind of every path is accepted whatever the old stage claims |
| `WatchRun.WatchSession.RunWatchCycle` | src/buildish_site_pipeline/commands/watch.py:526-698 | evaluates, builds, asks the replacement guard, swaps and only then trusts the new metadata; the new state for every way it can fail |
| `WatchGuard.CycleOutcomes` | src/buildish_site_pipeline/commands/watch.py:526-698 | a cycle over a visible stage succeeds exactly when nothing fails, the old stage has a manifest, every path that disappears is at, above or beneath a directory a unit of the old stage claims, and no surviving path changes its kind; what each failure leaves |
| `WatchGuard.FirstPublication` | src/buildish_site_pipeline/commands/watch.py:526-698 | without a visible stage a cycle succeeds exactly when no metadata asks for a seed and nothing fails, and publishes a full build; with metadata that asks for one the program ends |
| `WatchGuard.DroppedCoordinatorFileFails` | src/buildish_site_pipeline/staging/publication.py:131-255 | a cycle whose build no longer writes a file the coordinator wrote into the old stage fails and changes neither stage nor metadata |
| `WatchRun.CycleIsSafe` | src/buildish_site_pipeline/commands/watch.py:526-698 | a cycle that fails changes nothing and one that succeeds leaves a stage of its inputs with its metadata, if the dirty units cover all changes and rollback and sync do not fail |
| `WatchRun.RunIsSafe` | src/buildish_site_pipeline/commands/watch.py:359-404 | over every run of successful and failed cycles the visible stage and the trusted metadata agree and belong to the inputs of the last success |
| `WatchRun.EveryMomentShowsAFullBuild` | src/buildish_site_pipeline/commands/watch.py:359-404 | after each cycle of such a run the visible stage is, up to manifest order, a full build of what the last successful cycle read |
| `WatchEdits.EditsAreCovered` | src/buildish_site_pipeline/commands/watch.py:751-837 | dirty paths that cover every edit since the last success cover all changed units, when inputs are apart and only units an edit feeds change |
| `WatchEdits.PlannedCycleIsCovered` | src/buildish_site_pipeline/commands/watch.py:701-748 | a cycle is safe when plans are validated, inputs are apart, and its dirty paths are empty or tell of all edits and treat the nested site roots together |
| `WatchEdits.AccountedRunIsCovered` | src/buildish_site_pipeline/commands/watch.py:359-404 | a run whose edit log meets these conditions entry by entry, with the edits pending since the last success, is covered throughout |
| `WatchEdits.PendingSinceSuccess` | src/buildish_site_pipeline/commands/watch.py:526-634 | the edits a cycle has to account for are all those since the last success, in order |
| `WatchEdits.LoggedSessionIsSafe` | src/buildish_site_pipeline/commands/watch.py:287-404 | a whole session from its edit log: at every moment the visible stage is, up to manifest order, a full build of the last success's inputs, with trusted metadata |
| `WatchEdits.CollectedEditsAreCovered` | src/buildish_site_pipeline/commands/watch_events.py:100-123 | the coalesced edits of one cycle cover everything pending whenever the cycle before it succeeded |
| `WatchExamples.EditedLogoIsAccounted` | src/buildish_site_pipeline/commands/watch.py:526-698 | a concrete log that meets all conditions and rebuilds one unit of two |
| `WatchRun.SessionStart` | src/buildish_site_pipeline/commands/watch.py:287-301 | a successful first cycle makes the session trustworthy whatever stage it found |
| `WatchRun.WholeSessionIsSafe` | src/buildish_site_pipeline/commands/watch.py:287-404 | from any start, every covered run of cycles keeps showing the full build of what the last success read |
| `WatchRun.FullCycleIgnoresSeed` | src/buildish_site_pipeline/commands/watch.py:287-301 | with every unit dirty the build is the full build, order included, whatever stage and metadata the session found |
| `WatchFailures.AgreementIsExact` | src/buildish_site_pipeline/commands/watch.py:637-698 | a cycle keeps stage and metadata in agreement exactly when its rollback does not fail and, if the sync after the swap fails, the new run lists the same manifests and claims the same paths as the last |
| `WatchExamples.FailedSyncDisagrees` | src/buildish_site_pipeline/commands/watch.py:637-698 | in a valid plan the site assets are added and the sync fails: the new tree is visible and the trusted metadata is the old tree's |
| `WatchExamples.FixedDiagnosticsCycleFails` | src/buildish_site_pipeline/staging/publication.py:131-255 | the cycle after the last diagnostic was fixed builds without failure, does not succeed and leaves the old stage with its diagnostics |
| `WatchFailures.LostStageStaysLost` | src/buildish_site_pipeline/commands/watch.py:618-643 | after a failed rollback no later cycle of a plan with units brings a stage back; the first that evaluates finds no seed and ends the program |
| `WatchFailures.FailedCycleLosesChanges` | src/buildish_site_pipeline/commands/watch.py:581-605 | a unit that changed before a failed cycle and is not dirty afterwards is stale after the next success |
| `WatchFailures.FailedCycleIsExact` | src/buildish_site_pipeline/commands/watch.py:581-698 | with manifests and file names kept, the success after a failed cycle shows the full build if and only if the units it leaves alone are as at the last success |
| `WatchExamples.EditedLogoStaysStale` | src/buildish_site_pipeline/commands/watch.py:581-698 | a logo is edited, its cycle fails, a page is edited, its cycle succeeds: the published stage has the old logo |
| `WatchHandoff.WatchLoop.CollectDirtyPaths` | src/buildish_site_pipeline/commands/watch_events.py:100-123 | events read are returned coalesced, so no watched edit stops being accounted for; every wait is recorded as the moment it began |
| `WatchHandoff.WatchLoop.RunCycle` | src/buildish_site_pipeline/commands/watch.py:526-540 | a scan accounts for all earlier edits under the dirty paths, or for all if it is full, while edits made meanwhile stay queued |
| `WatchHandoff.WatchLoop.ReconcileWatchRoots` | src/buildish_site_pipeline/commands/watch.py:452-474 | after adopting changed roots with a full cycle each time every edit under the new roots is accounted for |
| `WatchHandoff.WatchLoop.RunWatch` | src/buildish_site_pipeline/commands/watch.py:337-404 | whenever the loop waits for a first change, every edit under the watched roots is still queued or was made before a scan that looked at it |
| `WatchHandoff.ReadKeepsAccount` | src/buildish_site_pipeline/commands/watch_events.py:107-123 | reading any number of queued events moves their edits to the collected paths and loses none |
| `WatchHandoff.ScanAccounts` | src/buildish_site_pipeline/commands/watch.py:426-449 | a full scan, or one over the collected paths, accounts for every edit made before it began |
| `WatchHandoff.ToldOrQueued` | src/buildish_site_pipeline/commands/watch_events.py:100-123 | a scan is told of every watched edit since the scans before it, except those whose events are still queued when it begins |
| `WatchConvergence.VisibleStageIsMixture` | src/buildish_site_pipeline/commands/watch.py:359-404 | while inputs go on changing, after every scan the visible stage is a stage of the mixed run in which each unit is as it was when it was last rebuilt |
| `WatchConvergence.SettledStageIsFullBuild` | src/buildish_site_pipeline/commands/watch.py:359-404 | once every edit was made before a scan that looked at it, the visible stage is, up to manifest order, the full build of the inputs as they are, with trusted metadata |
| `WatchConvergence.QuietWaitShowsFullBuild` | src/buildish_site_pipeline/commands/watch.py:337-404 | whenever the loop waits for a first change with no event queued, and its cycles succeeded, that full build is what it shows |
| `WatchExamples.RacingEditIsStale` | src/buildish_site_pipeline/commands/watch.py:359-404 | a scan may read an edit whose event is queued: its edit log is not accounted for and its stage not the full build of what it read |
| `WatchExamples.LogoWorldSettles` | src/buildish_site_pipeline/commands/watch.py:359-404 | a concrete world and scans that meet the conditions |
| `Routes.ValidatePublication` | src/buildish_site_pipeline/evaluation/publication.py:115-140 | reports each published target that collides with an earlier one, hence nothing exactly when origins and lower-cased paths are distinct |
| `ContextPaths.HomePaths` | src/buildish_site_pipeline/evaluation/publication.py:54-72 | where a component at its own home publishes each kind of context: releases beside the development docs, named refs, lines and candidates beneath them |
| `ContextPaths.HomePathsApart` | src/buildish_site_pipeline/evaluation/publication.py:54-72 | at its own home a component publishes two contexts at one path exactly when they have the same kind and name |
| `ContextPaths.DocsPathsDiffer` | src/buildish_site_pipeline/evaluation/publication.py:54-72 | the same for a component whose docs have a path of their own that its development path does not lie beneath |
| `RouteValidation.RouteValidator.ValidateRoutes` | src/buildish_site_pipeline/evaluation/routes.py:44-151 | the route, reference and edge tables of a plan, with one loop diagnostic for exactly each cycle of the edges |
| `RouteValidation.EdgesStartAtRoutes` | src/buildish_site_pipeline/evaluation/routes.py:392-400 | every redirect source was registered, so each label lookup of the loop report succeeds |
| `RouteCollisions.CollisionsAreExact` | src/buildish_site_pipeline/evaluation/routes.py:246-280 | one collision is reported, in order, for exactly each context, alias and redirect source whose key is held by an earlier route, unless it is a context and the holder a published target or context of its component |
| `RouteCollisions.EvaluatedHolders` | src/buildish_site_pipeline/evaluation/routes.py:60-110 | the route table holds at each key the last published target, or else the first route registered there |
| `RouteCollisions.PlanWithoutCollisions` | src/buildish_site_pipeline/evaluation/routes.py:246-280 | with published targets apart nothing collides if and only if every key used again is that of a context sharing it with published targets and contexts of its own component |
| `RouteCollisions.CanonicalsAreExact` | src/buildish_site_pipeline/evaluation/routes.py:154-181 | a canonical path is reported for exactly each component it does not lead to a route of, among targets, contexts and the aliases up to that component |
| `RouteCollisions.CleanIndexIsExact` | src/buildish_site_pipeline/evaluation/routes.py:60-110 | exactly when registration reports nothing |
| `ContextPaths.HomePlanHasNoCollision` | src/buildish_site_pipeline/evaluation/routes.py:246-280 | components at their own homes without redirects never collide, whatever contexts they have |
| `TargetMeaning.PublishedPaths` | src/buildish_site_pipeline/evaluation/publication.py:75-112 | the published targets of a component are its own path and those of its development docs, assets and docs, docs on the development path once |
| `TargetMeaning.RedirectAt` | src/buildish_site_pipeline/evaluation/routes.py:203-219 | each authored redirect is a route and a redirect from its path, at its own origin or else that of its component, to its target |
| `TargetMeaning.ComponentHopsListed` | src/buildish_site_pipeline/evaluation/routes.py:283-301 | the redirects of the components are exactly the authored ones |
| `TargetMeaning.ContextHopsListed` | src/buildish_site_pipeline/evaluation/routes.py:304-330 | the redirects of version contexts are exactly those of the contexts that redirect when withdrawn and have a target, from their public paths |
| `TargetMeaning.StagedContextHopsListed` | src/buildish_site_pipeline/staging/aggregates.py:597-603 | staging writes exactly the releases among them |
| `TargetMeaning.RouteTargetMeaning` | src/buildish_site_pipeline/evaluation/reference_index.py:137-151 | a route target means the route that holds its path at the origin of the redirect |
| `TargetMeaning.ComponentTargetMeaning` | src/buildish_site_pipeline/evaluation/routes.py:222-243 | a component target means the route at the canonical path of the component if that is one of its own, or else the one at its component path |
| `TargetMeaning.ContextTargetMeaning` | src/buildish_site_pipeline/evaluation/routes.py:431-438 | a line or release target means the public path of the last selected context that answers to it |
| `TargetMeaning.OtherTargetMeaning` | src/buildish_site_pipeline/evaluation/reference_index.py:137-151 | any other target means nothing |
| `TargetMeaning.UnknownIsExact` | src/buildish_site_pipeline/evaluation/routes.py:333-376 | one unknown target is reported, in order, for exactly each redirect that is no web address and leads nowhere |
| `TargetMeaning.EdgesAreExact` | src/buildish_site_pipeline/evaluation/routes.py:333-376 | an edge of the loop check leads where the last redirect from its key that leads anywhere does |
| `RedirectLoops.FindCycle` | src/buildish_site_pipeline/evaluation/routes.py:410-428 | the walk returns the one cycle its new nodes lie on, or none when they lie on none, and visits only new nodes |
| `RedirectLoops.ValidateRedirectLoops` | src/buildish_site_pipeline/evaluation/routes.py:379-407 | reports exactly the cycles, with their labels, in a total number of steps that is at most the number of nodes |
| `RedirectLoops.ReportCycle` | src/buildish_site_pipeline/evaluation/routes.py:389-407 | the test against already reported node sets never suppresses a cycle |
| `RedirectLoops.EachCycleReportedOnce` | src/buildish_site_pipeline/evaluation/routes.py:379-407 | each cycle is the node set of exactly one diagnostic |
| `ReleaseLines.HasLineCycle` | src/buildish_site_pipeline/evaluation/reference_index.py:498-510 | true exactly when the parent walk from the line runs into a cycle |
| `ReleaseLines.ParentVisitor.Visit` | src/buildish_site_pipeline/models/authored/site_catalog.py:922-937 | the recursive visit succeeds exactly when the line leads into no cycle, and marks only such lines as visited |
| `ReleaseLines.ValidateLifecycle` | src/buildish_site_pipeline/models/authored/site_catalog.py:898-942 | accepts exactly the lists with distinct versions and keys, known parents and acyclic chains, and otherwise names the first check that fails |
| `ReleaseLines.AcceptedLinesLeadIntoNoCycle` | src/buildish_site_pipeline/evaluation/reference_index.py:314-322 | on a validated list the later check never reports a parent cycle |
| `ReleaseLines.ParentCyclesAreExact` | src/buildish_site_pipeline/models/authored/site_catalog.py:914-937 | with distinct keys the parents are free of cycles exactly when no lines name each other as parents in a circle |
| `ReleaseLines.MutualParentsAreRejected` | src/buildish_site_pipeline/models/authored/site_catalog.py:914-937 | two lines that are each other's parents are rejected |
| `RedirectIndex.BuildRedirectResolutionIndex` | src/buildish_site_pipeline/staging/aggregates.py:629-693 | the places and references of components and then of contexts, later ones replacing earlier ones |
| `RedirectIndex.BuildRedirectEntries` | src/buildish_site_pipeline/staging/aggregates.py:571-626 | one entry for each redirect, from the base of its origin without trailing slashes and its path, to its web address as it is or to the base of the origin of its resolved place, without trailing slashes, and the path there; or an error exactly when a target or an origin is unknown, naming it |
| `RedirectAgreement.RouteReferencesAgree` | src/buildish_site_pipeline/staging/aggregates.py:720-742 | staging resolves a route path exactly when evaluation does and not to the source of a redirect, and both mean the same origin and path up to case |
| `RedirectAgreement.SelectionOrderPutsCandidatesFirst` | src/buildish_site_pipeline/planning/selection.py:457-466 | in selection order no candidate follows a release of the same artifact |
| `RedirectAgreement.TupleOrder` | src/buildish_site_pipeline/planning/selection.py:457-466 | the keys of selected contexts compare as text at the first place where they differ |
| `RedirectAgreement.ReleaseReferenceInjective` | src/buildish_site_pipeline/evaluation/routes.py:431-438 | release references of valid slugs and artifact keys determine slug, artifact and version |
| `RedirectAgreement.ContextReferencesAgree` | src/buildish_site_pipeline/staging/aggregates.py:671-692 | line and release references mean the same context on both sides when candidates come first |
| `RedirectResolution.ComponentReferencesAgree` | src/buildish_site_pipeline/evaluation/routes.py:222-243 | both sides prefer the same route for a component exactly when its canonical path is not a version context's only |
| `RedirectResolution.ReferencesAgree` | src/buildish_site_pipeline/staging/aggregates.py:720-742 | after an evaluation without collisions and canonical errors, staging resolves what the evaluation resolved, and alike, if and only if it is no redirect source and no context-only canonical path |
| `RedirectResolution.CleanEvaluationStages` | src/buildish_site_pipeline/staging/aggregates.py:571-742 | after a clean evaluation the redirect aggregate can be written, each entry leading where the evaluation said, if and only if every internal redirect meets that condition |
| `RedirectResolution.SettledEntriesLead` | src/buildish_site_pipeline/staging/aggregates.py:571-742 | each entry then leads from the slash-free base of the origin of its redirect and the path of the redirect to its web address, or to the slash-free base of the evaluated route followed by its path up to case |
| `RedirectExamples.RedirectToRedirectFails` | src/buildish_site_pipeline/staging/aggregates.py:720-742 | a plan that passes evaluation, publication and loop checks included, and ownership validation, whose second redirect leads to the source of the first: staging cannot write it |
| `RedirectExamples.ContextOnlyCanonicalDiffers` | src/buildish_site_pipeline/staging/aggregates.py:629-693 | such a plan whose canonical path only a named ref publishes: evaluation leads there, staging to the component's own path |
| `SpdxPolicy.SpdxExpressionIsCategoryX` | src/buildish_site_pipeline/legal/license_policy.py:132-145 | the verdict of a token list, a parser error, or the bare identifier scan when tokens are left over |
| `SpdxPolicy.EvalIsAllTainted` | src/buildish_site_pipeline/legal/license_policy.py:148-195 | the and-or evaluation is true exactly when every alternative of the disjunctive normal form has a Category X licence |
| `SpdxPolicy.VerdictOfExpression` | src/buildish_site_pipeline/legal/license_policy.py:132-195 | a printed expression is read back completely, and its verdict is true exactly when each alternative has a Category X licence |
| `SpdxPolicy.VerdictOfTree` | src/buildish_site_pipeline/legal/license_policy.py:132-195 | the same for every expression tree, bracketed where the precedence of section D.4.5 of SPDX 2.3 asks for it |
| `SpdxPolicy.ParserAcceptsExpressions` | src/buildish_site_pipeline/legal/license_policy.py:132-186 | the parser consumes all tokens exactly when they are an expression |
| `SpdxVerdicts.ProhibitedNames` | src/buildish_site_pipeline/legal/license_policy.py:24-58 | the policy knows exactly the three forms of seven GNU licences and twelve other names, in any letter case |
| `SpdxVerdicts.VerdictOfName` | src/buildish_site_pipeline/legal/license_policy.py:169-200 | a single name is prohibited exactly when it is one of them |
| `SpdxVerdicts.CaseDoesNotMatter` | src/buildish_site_pipeline/legal/license_policy.py:202-207 | spellings that differ only in the case of ASCII letters have the same verdict |
| `SpdxVerdicts.VerdictOfException` | src/buildish_site_pipeline/legal/license_policy.py:180-195 | with an exception the verdict is that of the name, unless the name is GPL-2.0 or GPL-2.0-only and the exception the Classpath exception, which is allowed |
| `SpdxVerdicts.LicenceIsProhibited` | src/buildish_site_pipeline/legal/license_policy.py:180-200 | the same for the licences of the alternatives an expression offers |
| `SpdxVerdicts.VerdictOfLeftovers` | src/buildish_site_pipeline/legal/license_policy.py:139-144 | a token list that is read but not as an expression is prohibited exactly when some token is a prohibited name |
| `LinkScanner.MaskInlineCode` | src/buildish_site_pipeline/evaluation/link_references.py:546-567 | blanks exactly the characters of code spans except line breaks |
| `LinkScanner.MaskKeepsLocations` | src/buildish_site_pipeline/evaluation/link_references.py:546-567 | a location looked up on the masked text is the location by counting on the original |
| `SourceLocator.LocatorCountsLines` | src/buildish_site_pipeline/evaluation/link_references.py:91-93 | the binary search gives the line by counting line breaks and the column by counting characters since the last |
| `SourceLocator.Locate` | src/buildish_site_pipeline/evaluation/link_references.py:82-93 | collecting the line starts in a loop and searching them locates every offset by counting |
| `SourceLocator.LocationsAreUnique` | src/buildish_site_pipeline/evaluation/link_references.py:91-93 | a line and column determine the offset |
| `LinkScanner.FindClosingBracket` | src/buildish_site_pipeline/evaluation/link_references.py:469-483 | finds the first closing bracket preceded by an even run of backslashes at nesting depth zero |
| `LinkScanner.FindClosingParen` | src/buildish_site_pipeline/evaluation/link_references.py:534-543 | finds the first closing parenthesis preceded by an even run of backslashes |
| `LinkScanner.ParseInlineLinkDestination` | src/buildish_site_pipeline/evaluation/link_references.py:486-531 | the destination in angle brackets, or up to the first unescaped balanced parenthesis or blank |
| `LinkScanner.DestinationIsSlice` | src/buildish_site_pipeline/evaluation/link_references.py:486-531 | a destination lies before its closing parenthesis and is the text at its offset, exactly unless leading white space was stripped |
| `LinkScanner.StripTrims` | src/buildish_site_pipeline/evaluation/link_references.py:518-521 | stripping a destination takes all white space away at both ends and nothing else |
| `LinkScanner.MarkdownLinkCandidates` | src/buildish_site_pipeline/evaluation/link_references.py:446-466 | yields, in order, exactly the non-empty destinations of the tried labels: those that are closed, open no image, and lie in no earlier tried label or its destination |
| `LinkScanner.NestedLinkIsSkipped` | src/buildish_site_pipeline/evaluation/link_references.py:446-466 | a link nested in a label without a destination is passed over, as in `[x [y](z)]` |
| `LinkScanner.CandidateIsSlice` | src/buildish_site_pipeline/evaluation/link_references.py:446-531 | every candidate is the text at its offset, exactly unless white space was stripped in front of its destination |
| `LinkScanner.CandidatesInOrder` | src/buildish_site_pipeline/evaluation/link_references.py:446-466 | candidates come in strictly increasing order and never overlap |
| `LinkScanner.HasResolvedShortcutReference` | src/buildish_site_pipeline/evaluation/link_references.py:293-319 | the two-pointer sweep finds a resolved shortcut exactly when some shortcut with a defined label is contained in no full reference |
| `VersionOrder.ComparisonIsExact` | src/buildish_site_pipeline/planning/selection.py:447-454 | comparing two versions fails exactly when one has no suffix and the other continues its numbers with a zero |
| `VersionOrder.OlderIsExact` | src/buildish_site_pipeline/planning/selection.py:447-454 | exactly when a version is older: the first differing number is smaller, or the numbers continue and not just with a zero unless it has a suffix, or the numbers are equal and its suffix comes before none or an alphabetically later one |
| `VersionOrder.ComparatorIsTotalPreorder` | src/buildish_site_pipeline/planning/selection.py:447-454 | on versions without such a pair the comparator is defined, antisymmetric up to ties, and transitive |
| `VersionOrder.SelectLatest` | src/buildish_site_pipeline/planning/selection.py:257-265 | the newest N versions are distinct and known, newest first, and none is below an omitted one |
| `PublicPaths.NormalForm` | src/buildish_site_pipeline/public_paths.py:33-51 | rooted and empty paths normalize to names only, without empty, dot or double-dot segments, in the asked-for slash style |
| `PublicPaths.NormalizeIdempotent` | src/buildish_site_pipeline/public_paths.py:33-51 | normalizing twice is normalizing once with the last slash style |
| `PublicPaths.RelativeNormalization` | src/buildish_site_pipeline/public_paths.py:33-51 | for relative paths it is idempotent exactly when the path does not climb |
| `PublicPaths.ClimbingStays` | src/buildish_site_pipeline/public_paths.py:33-53 | a relative path that climbs keeps every step up and then its names |
| `PublicPaths.ResolveConcat` | src/buildish_site_pipeline/public_paths.py:33-51 | the segment stack composes over concatenation |
| `PublicPaths.StepUp` | src/buildish_site_pipeline/public_paths.py:33-53 | normalizing a rooted path with a step up takes its last name away, and at the top nothing |
| `PublicPaths.JoinResolves` | src/buildish_site_pipeline/public_paths.py:54-71 | joining resolves the segment on top of the base, whatever slashes surround it |
| `PublicPaths.JoinAssociates` | src/buildish_site_pipeline/public_paths.py:54-71 | joining twice is joining once with the segments put together |
| `RoqSync.RoqProject.PublishPreparedRoots` | examples/roq/sync_stage.py:212-243 | what each root holds in the end, and which error is raised: a rename failed, with the rollbacks that failed, or a previous root could not be removed after a publication that went through |
| `RoqSync.RoqProject.RollBack` | examples/roq/sync_stage.py:246-261 | undoes the published roots in reverse order and lists exactly those it could not restore |
| `RoqSync.AllOrNothing` | examples/roq/sync_stage.py:212-261 | a failed publication restores every root to its prior content or absence if and only if no recovery operation fails |
| `RoqSync.UnreportedRoot` | examples/roq/sync_stage.py:224-239 | the error names every root that was not restored, exactly unless the root whose own rename failed could not be moved back |
| `RoqSync.PlanRoqContent` | examples/roq/sync_stage.py:174-201 | plans every file, or fails exactly when two adapted paths are equal up to case or a file stands at content/site |
| `RoqSync.PlanIsBijective` | examples/roq/sync_stage.py:174-201 | the plan loses no file and writes none twice |
| `RoqSync.IndexPageMoves` | examples/roq/sync_stage.py:180-190 | an index page loses its underscore, and the content of the site moves up one directory |
| `RoqSync.OtherFileStays` | examples/roq/sync_stage.py:180-190 | every other file keeps its name |
| `WatchLimits.CountEntriesBeneath` | src/buildish_site_pipeline/evaluation/limits.py:141-162 | counts the entries of every directory newly reachable below the root, or stops at one more than the limit, whatever links and cycles there are |
| `WatchLimits.CountWatchEntries` | src/buildish_site_pipeline/evaluation/limits.py:122-138 | the bounded count is the unbounded count, or one more than the limit if that is less |
| `WatchLimits.TreeIsCounted` | src/buildish_site_pipeline/evaluation/limits.py:141-162 | of a tree exactly the directories at and beneath the root are counted, however deep, and nothing links elsewhere lead to |
| `Localization.ValidateLocalization` | src/buildish_site_pipeline/evaluation/localization.py:46-152 | reports nothing exactly when translated pages have a supported locale, suffixes and keys determine each other, and each set has one page for each locale |
| `Localization.CleanIgnoresOrder` | src/buildish_site_pipeline/evaluation/localization.py:46-152 | permuting the pages does not change that verdict |
| `Localization.TwoPages` | src/buildish_site_pipeline/evaluation/localization.py:46-152 | two translated pages are clean exactly when, within one artifact, they have the same key if and only if their paths are equal below their locales, and then have different locales |
| `Localization.OnePage` | src/buildish_site_pipeline/evaluation/localization.py:46-152 | a single page is clean exactly when it is not identified, its component does not route by locale prefix or has no locales, or its first segment is a supported locale |

## Left out

- Real filesystem calls, symbolic links, permissions, temporary names and fsync itself: trees are maps, and each rename, removal and sync may fail.
- Subprocess workers and the thread pool: a worker is a function of the current inputs; only the ordering of its results is modelled.
- Markdown block parsing, YAML, JSON and regular expressions: token lists, match lists, page lists and event batches are inputs, and writing a page back is taken to keep its metadata and body.
- Aggregates that depend only on the plan, the diagnostics, the provider snapshot and the clock: they are one abstract map of files for each run.
- Reports, log lines, the event sink and command-line parsing.
- Page contributions of unknown components: the run that fails on them publishes nothing.
- What an evaluation reads besides routes, redirects, limits, translations and links: its stage gate is a flag of each cycle.
- `IncrementalRefinement.IncrementalBuildIsExact`: takes it that no two units write the same file; validation rules this out between owners, and between the two nested site roots a clash is where retaining is unsafe anyway.
- `Plan.BuildPlan`: only the fields that ownership, attribution and redirects read.
- `WatchRun.WatchSession.RunWatchCycle`: evaluation and the checks before the swap other than the replacement guard (symbolic links, file kinds of the roots) are two flags of the cycle, and the metadata of a published stage is taken to load again; a build whose seed is gone leaves the session as it is, where the program ends with an error.
- `WatchConvergence.SettledStageIsFullBuild`: from one full scan to the next change of the plan, over which plan and units stay the same; a scan reads the inputs at one moment, and all edits lie under the watched roots.
- `WatchFailures.LostStageStaysLost`: goes on after the cycle that ends the program, with nothing changed.
- `WatchEdits.EditsAreCovered`: that only units an edited path feeds change is a hypothesis about workers, which read their own sources and the configuration; whether the watcher reports an edit at all is not part of it.
- `DirtyPaths.DirtyUnitsAreComplete`: takes the reported paths to lie in the site, the workspace or a tested root; source roots are resolved inside the workspace, and links out of it are not modelled.
- `Staging.SeedNextStage`: removals are resolved paths beneath the candidate; the refusal of one that escapes it has no counterpart.
- `Staging.RunOwnedUnits`: a worker that fails, which fails the whole run.
- `Staging.RunBuild`: resolving redirects, looking up page components and validating ownership are taken to succeed; each has its own model elsewhere, except the page components.
- `StagePublication.PublicationArea`: the first publication into an absent stage is the swap without a move aside; failing to create the backup name is not modelled.
- `ReplacementGuard.GuardMeetsSelection`: states the condition for stages without empty directories; `GuardOnPublishedStage` allows them.
- `WatchHandoff.WatchLoop`: edits are those the watch filter lets through; events of a registered watcher arrive in order and are not dropped by the operating system.
- `RedirectIndex.RedirectEntry`: status codes, reasons and kinds of entries.
- `Routes.KnownRoute`: route identifiers, which only appear in messages; messages themselves are reduced to what they are about.
- `RouteValidation.RouteValidator.ValidateRoutes`: collisions among published targets, reported by an earlier validation, are not repeated.
- `VersionOrder.Version`: the pattern check and the number parsing; versions with a plus part, whose number parsing raises.
- `SpdxPolicy.SpdxExpressionIsCategoryX`: tokenizing; tokens are the input.
- `LinkScanner.HasResolvedShortcutReference`: finding the matches and normalizing their labels.
- `RoqSync.PlanRoqContent`: a planned file whose path is a directory of another planned file, which fails later when directories are made.
- `WatchLimits.CountWatchEntries`: roots that are not directories, for which listing raises.
- Legal texts, wheel hooks, snapshot publishing, schema export and path redaction.

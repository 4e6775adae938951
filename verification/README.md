# Models of the existing-programme knowledge base and the review worker

A Dafny model of five connected parts of the pre-review backend, with proofs of what they promise.
External parts are represented by what the code can observe of them: the language model, the
embedding service and the classifier are arbitrary functions, SHA-256 is an injective constructor,
and the database is a set of tables changed by atomic steps.

| file | models |
|---|---|
| `KbLedger.dfy` | the version ledger of the existing KB: one importer transaction and runs of them |
| `EmbeddingActivation.dfy`, `ActivationProtocol.dfy`, `ActivationRuns.dfy` | v1/v2 embedding configurations, the interleaving of any number of importers, embedding backfills and Model 1 backfills over two advisory locks and their commits, and what each reaches alone |
| `Model1Backfill.dfy` | Model 1 input assembly, the prediction loop, verification before promotion |
| `ProfilePublication.dfy`, `PublicationRuns.dfy` | fenced, content-addressed publication of a request profile by any number of attempts, and what one attempt reaches alone |
| `FitQuantities.dfy`, `FitJudging.dfy`, `FitHierarchy.dfy`, `FitFacts.dfy`, `FitReport.dfy`, `FitComparedFacts.dfy` | FIT: the rule of FIT-7, the repair loop around the model, the hierarchy sides, the seven-relation report, and which facts each relation compares |
| `QuantityReading.dfy`, `WonAmounts.dfy`, `Numerals.dfy` | quantities in context, amount phrases and two-digit estimates |
| `PyText.dfy`, `OccurrenceFolding.dfy`, `EffectRegions.dfy`, `EffectRecheck.dfy` | evidence coordinates: fragments, nested copies, earlier selections, model quotes |
| `ProfilePack.dfy`, `ProfileImport.dfy`, `DeliveryRoles.dfy`, `ProfileImporter.dfy`, `ImportedRows.dfy` | agreement of pack validator, importer and verifier on relational rows, and which rows an import adds |
| `EmbeddingBatches.dfy`, `ContextDigest.dfy`, `ContextRules.dfy` | greedy batching and routing; the length-framed context digest and its ignore patterns |
| `Wrappers.dfy`, `Sorting.dfy`, `Slices.dfy` | option and result types, Python's `sorted`, facts about slices |

`dafny verify dfyconfig.toml` checks the whole project.

The activation protocol is a transition system: a step is one READ COMMITTED statement, the
statements of an ingest on tables that its two locks keep others from writing, or one commit; locks are
held to the end of the transaction, the upsert of embeddings commits outside the
lock, uncommitted writes live in the phase of their process, and every process may fail at any
point. Whole-run theorems quantify over all traces and any number of processes.

## Assumptions

- SHA-256 is injective, and the canonical JSON of a document identifies it.
- A claim of an analysis run installs a processing token that was never issued before, and the
  handler runs once per claim (`backend/worker/runtime.py:286`). Runs start from uploads only.
- Objects that registered rows refer to are not deleted.
- `retrieval.promote_classification_configuration` makes its argument the active configuration.
- The region grammar, the quantity patterns and the clause boundaries are given as functions or match
  lists; regions lie inside their text, and occurrence ids of one document are unique.
- A new profile version has no fact rows yet, and delivery rows refer to existing facts (the foreign
  keys of those tables).

## Where the code and its description part

- `_hierarchy_sides` says that choosing one level keeps a node from standing on both sides. That holds
  exactly where no edge of the chosen level leads to a node of the same level with children
  (`FitHierarchy.SidesAreApartExactly`); an unlevelled chain of three shares its middle node
  (`FitHierarchy.UnlevelledChainSharesItsMiddle`), and the gate then refuses the comparison
  (`FitReport.SharedNodeIsRefused`).
- Re-importing a profile for superseded source bytes reports `ingested` without putting it online, and
  exactly then (`KbLedger.IngestedReplacesOnlineVersion`, `KbLedger.IngestedWithoutGoingOnline`).
- A Model 1 promotion verifies rows that a late backfill may replace before the commit, exactly where
  such a backfill straggles (`ActivationProtocol.VerifiedRowsStayOk`,
  `ActivationProtocol.StragglersCanSpoilRows`).
- A demotion without a v1 row leaves no configuration active
  (`EmbeddingActivation.DemotionKeepsOneActive`).
- Repeated spans within one delivery fact are patched, not inserted, so fewer organization rows arrive
  than validator and verifier count (`ProfileImporter.AcceptedProfilesAreImportedAsCounted`).
- In a document without effect regions the earlier selections are not reported as unplaced
  (`EffectRegions.EveryValueIsAccountedFor`).
- A negative Python offset passes the coordinate check. It can promote one stretch twice
  (`EffectRecheck.NegativeCoordinatesCanRepeat`, exactly when: `EffectRecheck.FactsRepeatExactly`) and
  the stretch of an earlier selection once more (`EffectRecheck.NegativeCoordinatesCanRepeatASelection`,
  exactly when: `EffectRecheck.FactsStandOnSelectionsExactly`).
- Printing an integer amount goes through a float and loses digits exactly where 53 significant bits are
  not enough (`WonAmounts.IntegersPrintLosslesslyExactly`).
- An unreadable span beside a used one does not block FIT-7
  (`FitQuantities.DroppedSpanBesideAUsedOneIsIgnored`).

## Model

| member | source | states |
|---|---|---|
| KbLedger.One | backend/scripts/ingest_existing_profile.py:164-172 | a lookup by natural key raises exactly when two rows match, and otherwise yields the only matching row or none |
| KbLedger.KnowledgeBase.IngestRecord | backend/scripts/ingest_existing_profile.py:447-520 | the statements of one ingest on the ledger and artifact tables leave what `Ingest` describes, or raise with it |
| KbLedger.KnowledgeBase.FindSource | backend/scripts/ingest_existing_profile.py:476-495 | notice, source profile and source version are found or inserted in that order, retiring the other current source versions before a new one |
| KbLedger.KnowledgeBase.ArchiveArtifacts | backend/scripts/ingest_existing_profile.py:217-235 | each artifact is found by its object key or inserted, and each consecutive pair becomes a lineage edge |
| KbLedger.ArtifactsExactly | backend/scripts/ingest_existing_profile.py:217-235 | each object key of the record leads to a row with it, every new row stands under the record's source version, and the lineage is what it was plus the consecutive pairs |
| KbLedger.KnowledgeBase.RunTransaction | backend/scripts/ingest_existing_profile.py:523-541 | a transaction either commits the whole ingest or leaves every table as it was |
| KbLedger.NewSourceVersion | backend/scripts/ingest_existing_profile.py:488-495 | retiring the others and inserting a current source version keeps one current version per source profile and every key unique |
| KbLedger.NewProfileVersion | backend/scripts/ingest_existing_profile.py:505-516 | the same for profile versions of one source version |
| KbLedger.IngestKeepsLedger | backend/scripts/ingest_existing_profile.py:447-520 | on the ledger tables an ingest of a sound ledger fails exactly when the source profile belongs to another notice (child rows and delivery repair may raise too: ProfileImporter); otherwise it keeps the ledger sound, loses no row, identifies the record by its whole row chain, archives its artifacts and touches current flags of its own source profile and source version only |
| KbLedger.AlreadyIngestedKeepsCurrentSet | backend/scripts/ingest_existing_profile.py:505-541 | an `already_ingested` outcome leaves the set of online profile versions unchanged, which is why the v2 demotion may be skipped |
| KbLedger.OneOnlineVersionPerSourceProfile | backend/scripts/ingest_existing_profile.py:488-516 | a source profile has at most one profile version online |
| KbLedger.IngestedReplacesOnlineVersion | backend/scripts/ingest_existing_profile.py:488-516 | a new profile version stays offline exactly when the record's source bytes are there already and superseded; it replaces only versions of its own source profile |
| KbLedger.AlreadyIngestedExactly | backend/scripts/ingest_existing_profile.py:476-520 | the outcome can be told from the tables: `already_ingested` exactly when the profile bytes are stored under the record's source bytes |
| KbLedger.OldBytesReturn | backend/scripts/ingest_existing_profile.py:488-516 | in any ledger: source bytes, then new ones, then the first ones with a new profile; the last import reports `ingested` and is not online |
| KbLedger.IngestedWithoutGoingOnline | backend/scripts/ingest_existing_profile.py:488-516 | that happens in three imports from an empty ledger |
| KbLedger.IngestTwice | backend/scripts/ingest_existing_profile.py:447-520 | ingesting the same record twice in a row changes no row and reports `already_ingested` |
| KbLedger.EveryRunKeepsLedger | backend/scripts/ingest_existing_profile.py:447-541 | every run of importer transactions, failed ones included, keeps at most one current source version per source profile and one current profile version per source version, and loses no row |
| EmbeddingActivation.EmbeddingStore.Upsert | backend/scripts/embed_existing_profiles.py:478-511 | the committed upserts set exactly the rows of the pending inputs |
| EmbeddingActivation.EmbeddingStore.ActivateAfterVerifiedBackfill | backend/scripts/embed_existing_profiles.py:237-401 | succeeds exactly when the target is the only v2 row beside one v1 row, nothing else is active, the expected keys are the current profiles in all four scopes, and each has its stored row with the expected hash; then the target alone is active, otherwise nothing changes |
| EmbeddingActivation.EmbeddingStore.DemoteAfterCurrentSetChange | backend/scripts/ingest_existing_profile.py:62-88 | an active v2 is switched off and v1 on; anything else stays |
| EmbeddingActivation.CheckConfigs | backend/scripts/embed_existing_profiles.py:255-325 | the configuration checks pass exactly when the target is the only v2 row, there is one v1 row, and nothing else is active |
| EmbeddingActivation.ActivatesExactly | backend/scripts/embed_existing_profiles.py:237-401 | the same condition for the promotion's specification: no hash missing or stale, no profile or scope uncovered |
| EmbeddingActivation.UpsertedKeys | backend/scripts/embed_existing_profiles.py:478-511 | an upsert adds or replaces exactly the keys of its rows, the last row of a key winning |
| EmbeddingActivation.DemotionKeepsOneActive | backend/scripts/ingest_existing_profile.py:62-88 | demotion from one active configuration keeps exactly one active if and only if the deposed one was not v2 or there is exactly one v1 row |
| EmbeddingActivation.DemotionLeavesNoActiveV2 | backend/scripts/ingest_existing_profile.py:62-88 | after a demotion no v2 row is active and no other configuration was touched |
| EmbeddingActivation.PromotionLeavesOnlyV2 | backend/scripts/embed_existing_profiles.py:375-397 | a promotion that passes its checks makes v2 the only active configuration |
| ActivationProtocol.StepKeepsInv | backend/scripts/embed_existing_profiles.py:237-401 | every statement of every importer, embedder and Model 1 promoter, and every failure, keeps the system invariant: sound ledger, fresh embeddings, complete active v2, disjoint locks |
| ActivationProtocol.ActiveV2IsAlwaysComplete | backend/scripts/embed_existing_profiles.py:237-401 | over every interleaving: whenever v2 is active, every current profile has all four scope rows, each with the hash of its own assembled input |
| ActivationProtocol.ConfigStep | backend/scripts/embed_existing_profiles.py:255-397 | a step changes the configuration table only as a demotion or as a checked promotion does |
| ActivationProtocol.UninterruptedPromotion | backend/scripts/embed_existing_profiles.py:237-401 | the promotion steps taken in one go commit exactly when `_activate_v2_after_verified_backfill` succeeds on those tables, and commit its configurations |
| ActivationRuns.FullBackfillActivatesV2 | backend/scripts/embed_existing_profiles.py:626-720 | a full backfill over a local pack that is the current set goes through: every current profile then has its four rows with the hashes of its own inputs, v2 alone is active, and no other row has changed |
| ActivationRuns.PendingExactly | backend/scripts/embed_existing_profiles.py:653-665 | a scope is embedded exactly if it was asked for and its stored hash is missing or different |
| ActivationRuns.OnlyFullBackfillsPromote | backend/scripts/embed_existing_profiles.py:704-723 | over every run, only a process that was started as a full backfill promotes v2 |
| ActivationRuns.ImportCommitsExactly | backend/scripts/ingest_existing_profile.py:523-541 | an import on its own commits exactly the ingest of its record, and demotes an active v2 exactly if the record was new |
| ActivationRuns.ModelOneCommitsExactly | backend/scripts/classify_existing_model1.py:483-555 | with no profile left to predict, a Model 1 backfill commits exactly when its inputs are those of exactly the current profiles and each has its OK row |
| ActivationRuns.BackfillClassifiesEveryProfile | backend/worker/existing_model1.py:282-362 | a Model 1 backfill whose predictions succeed goes through: every current profile has an OK row with the hash of its notice's metadata and its own bytes, and no other row has changed |
| ActivationProtocol.ExactlyOneActiveAlways | backend/scripts/ingest_existing_profile.py:47-88 | over every run from one active configuration and one v1 row, exactly one configuration is active at every point and none but v1 and v2 is ever switched |
| ActivationProtocol.ModelOnePromotesTheVerifiedCorpus | backend/scripts/classify_existing_model1.py:483-555 | over every run: before a Model 1 promotion there is a moment at which every current profile had an OK row with its re-assembled hash, and since then no importer changed a Model 1 input, not even notice metadata |
| ActivationProtocol.ModelOneCommitsOnOkRows | backend/scripts/classify_existing_model1.py:483-555 | the promotion commits on OK rows, too, where at the verification no other backfill of the configuration had looked up a row before it was there or worked on outdated inputs |
| ActivationProtocol.VerifiedRowsStayOk | backend/worker/existing_model1.py:302-335 | without such stragglers no interleaving spoils a verified row while the corpus is held |
| ActivationProtocol.StragglersCanSpoilRows | backend/worker/existing_model1.py:302-335 | with one, three steps of its own are enough to replace a verified row by a failure |
| ActivationProtocol.WantsIsWhatStepsTake | backend/scripts/ingest_existing_profile.py:39-59 | the lock order used below is the one the steps take: no step takes another lock than the one named |
| ActivationProtocol.NoWaitCycle | backend/scripts/classify_existing_model1.py:490-506 | importers, embedding promoters and Model 1 promoters never wait for one another in a cycle |
| ActivationProtocol.SomeoneCanGoOn | backend/scripts/classify_existing_model1.py:490-506 | as long as a process has work left, some process is not blocked |
| ProfilePublication.PostgresAnalysisStore.AddArtifact | backend/worker/postgres_analysis_store.py:376-418 | an artifact insert reuses an identical row and raises on a different one under the same key |
| ProfilePublication.PostgresAnalysisStore.LinkProfile | backend/worker/postgres_analysis_store.py:252-290 | the profile is linked once; a retry must bring the same profile id, schema and structured digest |
| ProfilePublication.PostgresAnalysisStore.RegisterRequestProfile | backend/worker/postgres_analysis_store.py:210-290 | one transaction registers artifacts, lineage and profile under the fence, or changes nothing |
| ProfilePublication.RegisterAdds | backend/worker/postgres_analysis_store.py:210-290 | a successful registration only adds rows, links exactly the given structured profile and was fenced |
| PublicationRuns.RegistersExactly | backend/worker/postgres_analysis_store.py:210-290 | a registration commits exactly when its processing run holds the live lease, the source artifact is the run's, neither object key is taken by another artifact, and a profile that is there has the same id, schema and digest |
| ProfilePublication.NextKeepsInv | backend/worker/analysis_job.py:691-891 | every move of any attempt, every claim and every lease expiry keeps the invariant and only adds objects, rows and registrations |
| ProfilePublication.RegisteredArtifactsAreStored | backend/worker/analysis_job.py:820-891 | over every run, whatever stale attempts do, each registered derived artifact points at a stored object with that hash |
| ProfilePublication.RegisteredProfileNeverChanges | backend/worker/postgres_analysis_store.py:252-290 | over every run, a run's registered structured profile is never replaced |
| ProfilePublication.EveryBuildUsesTheRegisteredProfile | backend/worker/analysis_job.py:691-796 | any two attempts of one run that reach `build_payload`, at whatever times, whether they produced or resumed, use the same profile and the same Common IR, the registered ones |
| ProfilePublication.BuildsAreOfTheClaim | backend/worker/analysis_job.py:725-796 | over every run, an attempt that reaches `build_payload` has its run's own profile id, a Common IR and a profile of the required schemas, the profile's parent being that Common IR, and both of its claim's source hash |
| ProfilePublication.GoesOnExactly | backend/worker/analysis_job.py:1034-1063 | an attempt that has obtained its documents goes on to `build_payload` exactly with these fields |
| PublicationRuns.FirstAttemptPublishes | backend/worker/analysis_job.py:691-796 | from any point of any run: an attempt with the live lease of a run without a profile can go through with any documents of its claim, and then has added two rows, the edges source to Common IR to profile, the profile row and both objects, and nothing else |
| PublicationRuns.LaterAttemptResumes | backend/worker/analysis_job.py:691-730 | from any point of any run: an attempt at a run with a profile cannot miss it, and can go through with the registered documents, reading only |
| PublicationRuns.OneMoreClaimPublishes | backend/worker/analysis_job.py:691-796 | at the end of any run in which a run has no profile, one more claim under a new token is enough: its attempt can go through to `build_payload`, every other attempt staying where it is |
| ProfilePublication.RegistrationFindsNoProfile | backend/worker/postgres_analysis_store.py:252-269 | over every run, an attempt that is about to register and holds the fence finds no profile of its run: the existing-row check is a safeguard that never speaks |
| ProfilePublication.RunsAreRegisteredOnce | backend/worker/analysis_job.py:691-760 | over every run, however many attempts there are and whether or not the answer to a commit arrives, at most one registration of a run commits |
| ProfilePublication.RegisteredCommonNeverChanges | backend/worker/postgres_analysis_store.py:210-290 | over every run, the Common IR that a profile was registered with stays its only one |
| ProfilePublication.NextKeepsOneRegistration | backend/worker/analysis_job.py:691-891 | every move, claim and expiry keeps what this rests on: tokens differ, an attempt that missed the cache and was claimed last belongs to a run without a profile, and each profile has one Common IR parent |
| ProfilePublication.SupersededForever | backend/worker/postgres_analysis_store.py:53-63 | an attempt whose token lost the fence never passes it again |
| ProfilePublication.StaleAttemptsRegisterNothing | backend/worker/postgres_analysis_store.py:210-290 | nothing a superseded attempt does changes a database row |
| FitQuantities.LabelOf | backend/worker/quantities.py:91-95 | a dimension is confirmed exactly when its modifiers name one label |
| FitQuantities.AmountsShareASlot | backend/worker/quantities.py:203-243 | two amounts are compared exactly when scope and nature are confirmed and equal and their periods are equal, stated or not |
| FitQuantities.CountsShareASlot | backend/worker/quantities.py:218-233 | two counts are compared exactly when period and scope are confirmed on both and equal |
| FitQuantities.TimesShareASlot | backend/worker/quantities.py:218-233 | times of one stated period always share a slot; times without one need a confirmed and equal period |
| FitQuantities.OthersShareASlot | backend/worker/quantities.py:218-233 | on any other axis period, scope and nature must all be confirmed and equal |
| FitQuantities.AxisValues | backend/worker/fit.py:479-518 | the dictionaries hold exactly the entries of the usable spans; a fact is invalid when unreadable and withheld when it contributes nothing |
| FitQuantities.CompareAxes | backend/worker/fit.py:611-620 | the flags of one component say whether some key differs, stands alone or agrees |
| FitQuantities.CompareGroups | backend/worker/fit.py:605-620 | the flags over all components, whatever order the sets are visited in |
| FitQuantities.Fit7 | backend/worker/fit.py:521-637 | the rule over the loops of the code returns the verdict of the specification, which `VerdictOnTheFacts` gives on the facts themselves |
| FitQuantities.ReviewExactlyWhenASlotDiffers | backend/worker/fit.py:521-637 | NEEDS_REVIEW exactly when some component, axis and context have different value sets on the two sides |
| FitQuantities.FitExactlyWhenEverySlotAgrees | backend/worker/fit.py:521-637 | FIT exactly when no fact is withheld or invalid, there is something to compare, and every slot is on both sides with equal sets |
| FitQuantities.VerdictOnTheFacts | backend/worker/fit.py:521-637 | the verdict and its reason code, told of the facts and their quantities alone: which count, which are answered by the other side, which are matched, and the order of the reasons |
| FitQuantities.VerdictIsSymmetric | backend/worker/fit.py:521-637 | swapping the sides does not change the verdict |
| FitQuantities.VerdictIgnoresOrderAndRepeats | backend/worker/fit.py:463-518 | reordering or repeating facts does not change the verdict |
| FitQuantities.SelfComparisonIsNeverReview | backend/worker/fit.py:463-477 | a side compared with itself is never NEEDS_REVIEW |
| FitQuantities.DroppedSpanBesideAUsedOneIsIgnored | backend/worker/fit.py:479-518 | withholding is tracked per fact: a span without context beside a used one changes no verdict |
| FitJudging.SalvageRows | backend/worker/llm_call.py:76-118 | salvage applies only to a body with a list under the envelope key, and yields the specified split |
| FitJudging.SalvageAccountsForEveryRow | backend/worker/llm_call.py:104-118 | every row of a rejected batch is parsed, broken or dropped |
| FitJudging.SalvageInventsNothing | backend/worker/llm_call.py:104-118 | the parsed rows are the good ones, the broken ids those of the identifiable bad ones, each as often as it was there |
| FitJudging.ValidVerdictsAreGrounded | backend/worker/fit.py:772-809 | a row is a verdict exactly when its status is one the model may give and each side's citations are from that side and, unless INSUFFICIENT, not empty; it keeps status and citations, and the reason exactly if its code is known |
| FitJudging.AcceptedExactly | backend/worker/fit.py:875-930 | a relation is accepted exactly when one row of the reply names it and no other does, broken rows included, and that row is a valid verdict |
| FitJudging.OtherRowsDoNotMatter | backend/worker/fit.py:875-930 | rows about other relations, wherever they stand and whatever is wrong with them, change nothing for this one |
| FitJudging.IndexRows | backend/worker/fit.py:885-908 | the dictionaries built from a reply count the rows naming each relation, keep the last good one and mark the broken ones |
| FitJudging.JudgeReply | backend/worker/fit.py:910-942 | one pass over the remaining relations accepts, reports and keeps exactly those the specification says |
| FitJudging.CompareRelations | backend/worker/fit.py:812-951 | the repair loop computes the verdicts and makes the calls of `Repair` |
| FitJudging.RepairIsBoundedAndTotal | backend/worker/fit.py:840-951 | at most `max_repairs + 1` calls, exactly one verdict for every relation asked, and no verdict given before is altered |
| FitJudging.VerdictIsFirstAccepted | backend/worker/fit.py:840-951 | whatever the model answers, a relation's verdict is the first acceptable one; if there is none it is INSUFFICIENT with the reason of the failed call or of the spent repairs |
| FitHierarchy.FindHierarchySides | backend/worker/fit.py:236-336 | nodes by first readable id, explicit edges, one level, and the two sides with their attached facts |
| FitHierarchy.SidesNeedAnEdge | backend/worker/fit.py:247-274 | there are sides exactly when a readable node names another readable node as its parent |
| FitHierarchy.OnBothSidesExactly | backend/worker/fit.py:276-294 | a node stands on both sides exactly when it is the child of one edge and the parent of another, each under a parent of the highest known level or with no level known |
| FitHierarchy.SidesAreApartExactly | backend/worker/fit.py:239-294 | choosing one level keeps the sides apart exactly where no edge of that level leads to a node of the same level with children; with no level known, where no child has children |
| FitHierarchy.UnlevelledChainSharesItsMiddle | backend/worker/fit.py:239-246 | without levels a chain of three puts the middle node on both sides |
| FitReport.AnalyzeFit | backend/worker/fit.py:957-1082 | always seven results in enum order, each as the gates, the rule or the repair loop decide it |
| FitReport.Screen | backend/worker/fit.py:1004-1046 | the gates settle exactly the relations the model is not asked about and leave the others pending in order |
| FitComparedFacts.SidesExactly | backend/worker/fit.py:339-400 | for all relations but FIT-4: an id is on a side exactly when a fact with that non-empty FIT id stands at one of the named fields, purpose axes or delivery members of that side |
| FitComparedFacts.SidesInOrder | backend/worker/fit.py:957-1006 | the ids of each side come field by field in the named order, in each in the order of the facts |
| FitComparedFacts.ReferencesInOrder | backend/worker/fit.py:206-233 | the references handed to FIT-7 are those of the facts of its two fields, in order, each with id, block and quantities of its fact |
| FitComparedFacts.HierarchySidesExactly | backend/worker/fit.py:236-336 | FIT-4 compares what the parents of the compared edges bring with what their children bring: their ids and those of the facts attached to them |
| FitComparedFacts.ComparedExactly | backend/worker/fit.py:258-295 | compared are the edges under parents of the highest known level, or all where no parent's level is known |
| FitComparedFacts.ReasonsExactly | backend/worker/fit.py:403-453 | which of the reason codes withholds a relation, told of its two lists of ids and the fields of the CPL |
| FitComparedFacts.SettledExactly | backend/worker/fit.py:1004-1046 | a relation that is not asked is NOT_APPLICABLE for FIT-4 without hierarchy facts and INSUFFICIENT with its reason and no citation otherwise |
| FitComparedFacts.JudgedExactly | backend/worker/fit.py:1048-1070 | a relation that is asked has the verdict and the citations of the first acceptable reply |
| FitComparedFacts.RuleExactly | backend/worker/fit.py:521-637 | FIT-7 reports the rule's verdict on its two fields and cites both sides exactly where it decides |
| FitComparedFacts.IdsOfFacts | backend/worker/fit.py:145-203 | a delivery member is named by its relation and place, any other fact by its own id, and cutting off the place gives the base id |
| PyText.FirstOnlyKeepsOrder | backend/worker/fit.py:145-165 | duplicates are dropped, the first of each staying in its place |
| FitReport.NotApplicableExactly | backend/worker/fit.py:990-1000 | NOT_APPLICABLE exactly for FIT-4 without hierarchy facts |
| FitReport.AskedIsJudged | backend/worker/fit.py:1048-1070 | a relation that was asked gets the verdict of the first acceptable reply, never NOT_APPLICABLE |
| FitReport.DecidedVerdictsAreGrounded | backend/worker/fit.py:772-809 | a verdict of the model other than INSUFFICIENT cites at least one id per side, only from that side; the cited sets are disjoint and resolve to CPL ids |
| FitReport.SharedNodeIsRefused | backend/worker/fit.py:403-420 | where a node with an id stands on both sides of the hierarchy, the gate answers SELF_COMPARISON and the model is not asked |
| FitReport.SettledWithoutTheModel | backend/worker/fit.py:1004-1046 | what the gates settle, and FIT-7, is the same whatever the model would answer |
| FitReport.OnlyDottedIdsAreUnresolved | backend/worker/fit.py:185-203 | an id of the CPL's own facts fails to resolve only when a relation id, fact id or reference contains a dot |
| QuantityReading.Attach | backend/worker/quantities.py:146-179 | each number gets the chain of modifiers that the specification attaches |
| QuantityReading.CollectChain | backend/worker/quantities.py:164-176 | the backward walk over the modifiers, skipping those out of range and stopping at the first gap |
| QuantityReading.AttachedModifiersAreDirect | backend/worker/quantities.py:146-179 | an attached modifier lies after the previous number and the last clause boundary, and the chain does not overlap and is joined by glue up to the number |
| QuantityReading.NoModifierServesTwoNumbers | backend/worker/quantities.py:146-179 | no modifier serves two numbers, overlapping numbers included |
| QuantityReading.AttachedExactly | backend/worker/quantities.py:164-176 | a number gets a modifier exactly when the last eligible one touches it |
| QuantityReading.AttachedCompletely | backend/worker/quantities.py:146-179 | the chain of a number is connected and complete: every further modifier that reaches it through glue is attached, in the order of the text |
| QuantityReading.ReadQuantities | backend/worker/quantities.py:182-200 | a reading is empty unless every digit run is part of a number, and then reads every number |
| QuantityReading.ConfirmedContextIsAttached | backend/worker/quantities.py:91-111 | a context that FIT-7 takes as confirmed was said by a modifier attached to that number |
| WonAmounts.GroupedIsReadable | backend/worker/quantities.py:114-117 | the printer's comma groups are in the reader's grammar and leave the plain numeral |
| WonAmounts.PrintedAmountReadsBack | backend/worker/ml_reference.py:732-746 | reading a printed amount of whole won gives the same number of won back, comma groups included |
| WonAmounts.IntegerPhraseReadsBack | backend/worker/ml_reference.py:716-746 | the phrase of an integer, which passes through float(), is read back as its nearest double |
| WonAmounts.IntegersPrintLosslesslyExactly | backend/worker/ml_reference.py:716-746 | nothing is lost exactly where 53 significant bits are enough, in the range of a double |
| WonAmounts.SmallIntegersPrintLosslessly | backend/worker/ml_reference.py:716-746 | that is so for every amount below 2^53 |
| WonAmounts.PhrasesAreDistinct | backend/worker/ml_reference.py:732-746 | different amounts never share a phrase |
| WonAmounts.EstimateIsNearest | backend/worker/ml_reference.py:749-761 | the estimate is the nearest multiple of its unit |
| WonAmounts.EstimateIsClose | backend/worker/ml_reference.py:749-761 | the estimate is positive and within five per cent of the amount |
| WonAmounts.EstimateIsMonotone | backend/worker/ml_reference.py:749-761 | a larger amount never has a smaller estimate, across units too |
| WonAmounts.EstimateIsIdempotent | backend/worker/ml_reference.py:749-761 | estimating an estimate changes nothing, the carry to 100 units included |
| WonAmounts.EstimatePhraseReadsBack | backend/worker/ml_reference.py:749-761 | the estimate's phrase reads back as the estimate |
| PyText.UniqueIndex | backend/worker/cpl_effect.py:89-95 | an index exactly for a non-empty text that occurs once, overlapping occurrences included |
| OccurrenceFolding.RefIdentifies | backend/worker/cpl_coverage.py:156-168 | within one document a reference identifies occurrence, start and end, whatever characters the id contains |
| OccurrenceFolding.NestingIsAStrictOrder | backend/worker/cpl_coverage.py:295-306 | nesting is irreflexive, asymmetric and transitive, and deeper ids are longer |
| OccurrenceFolding.PrefixWithoutSeparatorIsNoParent | backend/worker/cpl_coverage.py:295-306 | an id that merely starts like another is its sibling, not its child |
| OccurrenceFolding.FoldNestedDuplicates | backend/worker/cpl_coverage.py:309-334 | the loop over the sorted fragments computes the fold |
| OccurrenceFolding.FoldingKeepsTheDeepest | backend/worker/cpl_coverage.py:309-334 | for any input order, exactly the fragments that nothing repeats deeper stay, each as often as it was there; every other one has a kept repeat below it |
| OccurrenceFolding.BuildFragments | backend/worker/cpl_coverage.py:200-239 | the fragments are those of each label's own content, or of the occurrences an empty label governs, folded |
| OccurrenceFolding.FragmentsAreCutFromTheDocument | backend/worker/cpl_coverage.py:242-266 | every fragment is exactly the stretch of the original that its reference names |
| EffectRegions.ToOccurrence | backend/worker/cpl_effect.py:98-122 | a selection moves to an occurrence only where the slice there is its value |
| EffectRegions.FindPlacements | backend/worker/cpl_effect.py:125-162 | by coordinates in regions of the same occurrence, by every occurrence of the text in regions above and below otherwise |
| EffectRegions.BuildEffectCandidates | backend/worker/cpl_effect.py:165-211 | each region carries the sorted spans filed under its reference; values without a certain place are reported once |
| EffectRegions.LandingIsLiteral | backend/worker/cpl_effect.py:98-162 | a selection that lands slices its region to exactly the fact's value |
| EffectRegions.MovesExactly | backend/worker/cpl_effect.py:98-122 | a value moves to the original exactly when its block has one occurrence and it stands there at its own coordinates or, failing that, occurs there once |
| EffectRegions.LandsExactly | backend/worker/cpl_effect.py:98-162 | a value lands exactly when it has one candidate place in one region, and it lands there |
| EffectRegions.LandsInOneRegion | backend/worker/cpl_effect.py:125-211 | a selection lands in at most one region, even where one stretch was cut out twice |
| EffectRegions.SelectedSpansAreLiteral | backend/worker/cpl_effect.py:165-211 | every `already_selected` span slices its region to the value of a fact that lands there |
| EffectRegions.SelectionsAreConserved | backend/worker/cpl_effect.py:165-211 | the regions together carry exactly as many spans as there are facts that land |
| EffectRegions.EveryValueIsAccountedFor | backend/worker/cpl_effect.py:173-176 | every value is placed or reported unplaced exactly when the document has regions or there is no value |
| EffectRecheck.RecoveredEffectFacts | backend/worker/cpl.py:1045-1116 | the loop splits the model's rows as the specification does |
| EffectRecheck.RowsAreSplit | backend/worker/cpl.py:1045-1116 | every row is a fact, a duplicate or a drop, and the drops are the rows without a place |
| EffectRecheck.PlacesAreNew | backend/worker/cpl.py:1084-1095 | the recorded places of facts are pairwise distinct, come from accepted rows and are not recorded for an earlier selection of that text; with a negative offset a recorded place is not where the quote stands |
| EffectRecheck.EveryPlaceIsCovered | backend/worker/cpl.py:1084-1095 | the place of every accepted row is a fact or an earlier selection |
| EffectRecheck.RecordedExactly | backend/worker/cpl.py:1084-1095 | the facts are exactly the places and quotes of the accepted rows without those that an earlier selection of the region has with the same start, end and text |
| EffectRecheck.RecordedInOrder | backend/worker/cpl.py:1084-1095 | they stand in the order in which their places were first named |
| EffectRecheck.AcceptedQuotesAreLiteral | backend/worker/cpl.py:1064-1082 | an accepted quote is a literal slice of its region, and without coordinates its only occurrence |
| EffectRecheck.AmbiguousQuotesAreDropped | backend/worker/cpl.py:1074-1082 | a quote without coordinates is accepted exactly when it has one place to be |
| EffectRecheck.PlaceIsTrueExactly | backend/worker/cpl.py:1067-1083 | the recorded place is where the quote stands exactly when its offset is not negative |
| EffectRecheck.NonNegativeCoordinatesNeverRepeat | backend/worker/cpl.py:1083-1095 | with non-negative coordinates two facts never come from the same stretch |
| EffectRecheck.FactsRepeatExactly | backend/worker/cpl.py:1064-1095 | two facts come from one stretch exactly when two accepted rows, neither recorded before, give the same quote at the same bound of one region with different offsets |
| EffectRecheck.NegativeCoordinatesCanRepeat | backend/worker/cpl.py:1067-1083 | an input on which a negative offset promotes one stretch twice |
| EffectRecheck.FactsLieOutsideEarlierSelections | backend/worker/cpl.py:1084-1092 | in offered regions no fact records the place of an earlier selection, and a fact with a non-negative offset does not stand on one |
| EffectRecheck.FactsStandOnSelectionsExactly | backend/worker/cpl.py:1064-1095 | a fact stands on an earlier selection exactly when an accepted row names that stretch with a negative offset |
| EffectRecheck.EverySelectionCanBePromotedAgain | backend/worker/cpl.py:1067-1092 | every earlier selection of every offered region can be promoted again that way |
| EffectRecheck.NegativeCoordinatesCanRepeatASelection | backend/worker/cpl.py:1067-1092 | an input on which it is |
| EffectRecheck.RecoveredFactsAreNewPassages | backend/worker/cpl.py:1045-1116 | from the document to the facts: every recovered quote stands in the original text of its region's occurrence, and with non-negative coordinates neither on an earlier selection nor where another fact stands |
| EmbeddingBatches.BatchedChunks | backend/scripts/embed_existing_profiles.py:148-164 | the batches concatenate to all chunks in order, each is within both caps or a single chunk, and none could have taken the next chunk |
| EmbeddingBatches.NoSplitIsSmaller | backend/scripts/embed_existing_profiles.py:148-164 | no other way to cut the same list into sendable batches needs fewer requests |
| EmbeddingBatches.EmbedPending | backend/scripts/embed_existing_profiles.py:667-698 | on success every input holds exactly its stretch of the vectors, one per chunk in chunk order; the first bad answer stops the run |
| EmbeddingBatches.RoutedIsAStretch | backend/scripts/embed_existing_profiles.py:687-697 | routing by identity gives each input the stretch its chunks take up in the request list |
| EmbeddingBatches.AnswersAreTakenExactly | backend/scripts/embed_existing_profiles.py:676-697 | an answer is taken exactly if it has one vector of the right size per text, and then in the order of its indexes |
| EmbeddingBatches.HonestAnswerIsSortedBack | backend/scripts/embed_existing_profiles.py:684-686 | sorting by index puts an answer given in any order back in the order of the texts |
| EmbeddingBatches.EveryChunkGetsItsVector | backend/scripts/embed_existing_profiles.py:667-698 | however the requests were cut, with an honest service chunk k of input i gets its own embedding |
| ContextDigest.FrameIsPrefixFree | backend/scripts/build_context_digest.py:107-114 | a frame ends where its length says; what follows cannot be taken for part of it |
| ContextDigest.StreamIsInjective | backend/scripts/build_context_digest.py:148-170 | equal streams come from equal ordered lists of path, kind, mode and payload |
| ContextDigest.WalkExactly | backend/scripts/build_context_digest.py:129-146 | the walk lists an entry exactly when the tree has it and neither it nor a directory above it is excluded |
| ContextDigest.WalkIsDistinct | backend/scripts/build_context_digest.py:129-146 | the walk lists no path twice |
| ContextRules.RulesAgree | backend/scripts/build_context_digest.py:25-105 | the exclusion test leaves out exactly the paths that match a declared ignore pattern and no declared exception |
| ContextRules.DigestExactly | backend/scripts/build_context_digest.py:107-171 | the hash is that of the domain and, in path order, the four frames of every retained entry; a context is refused exactly where an entry is no file, link or directory or a length does not fit eight bytes |
| ContextRules.LexExactly | backend/scripts/build_context_digest.py:148 | the order of paths is by the first byte that differs, a prefix first |
| ContextRules.BigEndianDigit | backend/scripts/build_context_digest.py:107-114 | byte i of a frame length is the digit of its weight |
| ContextRules.PathIsJoined | backend/scripts/build_context_digest.py:148-151 | a path is its names with a slash between any two |
| ContextDigest.BackendBuildContextDigest | backend/scripts/build_context_digest.py:117-171 | the loop over the sorted entries hashes the specified stream or refuses the context |
| ContextDigest.DigestIdentifiesTheContext | backend/scripts/build_context_digest.py:117-171 | two contexts have the same digest exactly when they contribute the same entries; walk order and excluded entries do not show |
| Model1Backfill.AssemblyIgnoresRowOrder | backend/worker/existing_model1.py:166-219 | with explicit, distinct ordinals the model's input does not depend on the order in which the rows were fetched |
| Model1Backfill.AssembledExactly | backend/worker/existing_model1.py:166-219 | the three texts are the non-empty values of the identified or partial facts of their fields, repeats included, in the order of ordinal and encounter |
| Model1Backfill.LinesAreJoined | backend/worker/existing_model1.py:166-219 | a text is its values with a line break between any two |
| Model1Backfill.CorpusIsExactly | backend/scripts/classify_existing_model1.py:483-520 | the re-read corpus is the expected one exactly when no profile comes twice, the profiles are the expected ones and each assembles to its expected hash |
| Model1Backfill.RowsOfARun | backend/worker/existing_model1.py:303-335 | after a run each profile that was asked has what the model said of its payload, the failed one its failure, and every other row is as it was |
| Model1Backfill.Model1Repository.VerifyAndPromote | backend/scripts/classify_existing_model1.py:483-555 | promotes exactly when the re-read corpus is the expected one and every profile has an OK row with its hash |
| Model1Backfill.Model1Repository.PredictAll | backend/worker/existing_model1.py:300-335 | the loop of the run, stopping at the first failed prediction |
| Model1Backfill.Model1Repository.Run | backend/worker/existing_model1.py:282-362 | empty, unreadable or ambiguous corpora and dry runs write nothing; otherwise the run promotes exactly when no prediction failed and the corpus then verifies, and is recorded as succeeded or failed |
| Model1Backfill.OnlyMissingResultsAreAsked | backend/worker/existing_model1.py:303-335 | the model is called exactly for the profiles without an OK row of their hash, in order, up to the first failure; without one, predicted plus skipped is the corpus |
| Model1Backfill.EveryInputHasItsRow | backend/worker/existing_model1.py:303-335 | after a run without a failed prediction every input has an OK row with its hash |
| Model1Backfill.RerunAsksNothing | backend/worker/existing_model1.py:303-312 | a rerun over the same corpus calls no model |
| Model1Backfill.ProgressIsKept | backend/worker/existing_model1.py:303-335 | a failed run keeps what it predicted; the next one asks only for the rest |
| Model1Backfill.UnchangedCorpusIsVerified | backend/scripts/classify_existing_model1.py:483-555 | where the corpus has not changed, verification passes exactly when no prediction failed |
| ProfilePack.NoRepeats | backend/scripts/existing_kb_pack.py:278 | comparing a list's length with its set's says that no element repeats |
| ProfilePack.ValidateProfile | backend/scripts/existing_kb_pack.py:204-432 | accepts exactly the profiles whose ids are distinct and whose references resolve, and counts their rows table by table |
| ProfilePack.BothCountsAgree | backend/scripts/verify_existing_kb.py:120-197 | validator and verifier count the same rows for every accepted profile, and folding by id drops nothing |
| DeliveryRoles.UpsertedExactly | backend/scripts/ingest_existing_profile.py:291-318 | after the upserts every natural key is there, and its row is the last one of the list |
| DeliveryRoles.RepeatingChangesNothing | backend/scripts/ingest_existing_profile.py:253-325 | running the upserts a second time changes no row |
| DeliveryRoles.OneRowPerSpan | backend/scripts/ingest_existing_profile.py:302-318 | the organizations of a fact go into one row per span new to the fact |
| DeliveryRoles.OrganizationsAreCountedExactly | backend/scripts/existing_kb_pack.py:379-383 | the organization count agrees exactly when no exact span repeats within a delivery fact |
| ProfileImporter.RowStore.InsertComponents | backend/scripts/ingest_existing_profile.py:328-340 | one row per component, and a dictionary from id to the key of the right row |
| ProfileImporter.RowStore.InsertFacts | backend/scripts/ingest_existing_profile.py:342-372 | facts with evidence and context in order, and a dictionary from id to the key of the right row |
| ProfileImporter.RowStore.InsertLinks | backend/scripts/ingest_existing_profile.py:374-381 | relations and links resolve to the keys of their targets, or the import fails on an unknown id |
| ProfileImporter.RowStore.InsertProjections | backend/scripts/ingest_existing_profile.py:383-434 | each projection's rows under its own key, with continued ordinals, or failure on an unknown id; which rows these are says `ImportedRows.RowsOfAnImport` |
| ProfileImporter.RowStore.UpsertDeliveryRoles | backend/scripts/ingest_existing_profile.py:253-325 | finds each delivery fact's row and upserts its role and organizations, or fails on a missing one |
| ProfileImporter.RowStore.InsertProfileChildren | backend/scripts/ingest_existing_profile.py:328-444 | succeeds exactly when every id resolves, and then the rows are those of the profile, all keys resolved |
| ImportedRows.RowsOfAnImport | backend/scripts/ingest_existing_profile.py:328-444 | the child rows an import adds, told of the profile: facts, evidence, context, relations by kind and direction, applicability, target sources by role, dimensions, facets and measures, each with its owner's key, its place and the key of the fact or component it names |
| ImportedRows.TablesAfterAnImport | backend/scripts/ingest_existing_profile.py:253-444 | with the delivery pass: a row is in the tables afterwards exactly when it was there before, is one of these or is the last delivery row of its key |
| ProfileImporter.InsertedFactIsFound | backend/scripts/ingest_existing_profile.py:276-286 | a fact just inserted is found under the key it got |
| ProfileImporter.RepairTwice | backend/scripts/ingest_existing_profile.py:253-325 | the repair of delivery rows is idempotent on any tables |
| ProfileImporter.SecondIngestChangesNoChildRow | backend/scripts/ingest_existing_profile.py:506-510 | the repair that a second ingest of the record runs finds every delivery fact and changes no row |
| ProfileImporter.AcceptedProfilesAreImportedAsCounted | backend/scripts/ingest_existing_profile.py:328-444 | for every accepted profile the importer meets no unknown id and inserts, table by table, the counted rows; organization rows agree exactly when no span repeats within a fact, and are fewer otherwise |

## Left out

- ActivationProtocol.ModelOnePromotesTheVerifiedCorpus: states the claim at the promotion instant; the later invalidation of an active classification is decided in SQL that is not part of this model.
- KbLedger.KnowledgeBase.IngestRecord: the notice, source, profile version, artifact and lineage tables; the child rows of a new profile version and the delivery repair, which may raise as well, are modelled in ProfileImporter.
- KbLedger.IngestKeepsLedger: the same tables; an unknown id in a child row or a missing delivery fact rolls the transaction back, too.
- ActivationProtocol.SomeoneCanGoOn: waits are those for the two advisory locks and the configuration rows; row locks that two concurrent upserts of embeddings take on the same rows, in the order of their pending lists, are not modelled.
- WonAmounts.PrintedAmountReadsBack: amounts that are whole won after float(), see the lemmas on integers; a text that is one amount: searching for amounts inside a longer text is given as match lists in QuantityReading, and white space beyond the ASCII characters is not modelled.
- WonAmounts.EstimateIsClose: exact quotients; the source divides floating-point numbers, which agrees for amounts below 2^53.
- ProfilePack.ValidateProfile: the checks on ids, references, ownership and repeats; checks on statuses, spans against block texts, evidence shapes and JSON types are left out, so more profiles are accepted here than by the source and the theorem covers all of those.
- ProfileImporter.RowStore.InsertProfileChildren: rows are kept in one list in the order of insertion, a row's key being its rank in its table; columns that are copied unchanged (names, roles, block ids, measure values) are reduced to one content field.
- EmbeddingBatches.EmbedPending: token usage and the pooling of chunk vectors are not modelled.
- Model1Backfill.Model1Repository.Run: database errors inside the run, normalisation of raw predictions and white-space cleaning are not modelled; the model answers with an allowed prediction or fails.
- ContextDigest.DigestIdentifiesTheContext: the directory tree does not change while it is read, and os.walk is a function over it.
- SQL that exists only in migrations: claim and heartbeat, result persistence, queues, triggers.
- Delivery recheck, purpose axes and the display aggregation of CPL; the objects of an ingest other than their keys, and artifact logical ids.
- Diagnostics, prompts, transport retries, timeouts and signals; HTTP, storage transport and subprocesses.
- Cosine scores, vector pooling and every other use of floating point.
- Configuration loading, command lines, archive extraction and the comparison of stored objects in the bootstrap verification: single checks without interplay.

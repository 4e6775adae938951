/** Importers, embedding backfills and Model 1 backfills of any number run at once. They
    commit in pieces and meet only at two advisory locks, at row locks and at transaction
    boundaries; every statement reads what is committed at that moment (READ COMMITTED).
    backend/scripts/ingest_existing_profile.py, embed_existing_profiles.py and
    classify_existing_model1.py. */
module ActivationProtocol {
  import opened Wrappers
  import opened KbLedger
  import opened EmbeddingActivation

  /** What the processes compute from bytes: the input hash of a scope of a profile and the
      Model 1 input hash of portal metadata and a profile. Profile bytes are named by their
      SHA-256, which is taken to be injective. */
  datatype InputHashers = InputHashers(
    embeddingInput: (string, Scope) -> string,
    model1Input: (string, string) -> string)

  datatype LocalFile = LocalFile(sourceProfileId: string, profileSha: string)
  datatype Classified = Classified(inputSha: string, succeeded: bool)

  datatype Store = Store(
    kb: Kb,
    configs: seq<Config>,
    embeddings: Embeddings,
    classified: map<(nat, nat), Classified>,
    activeClassification: Option<nat>)

  datatype Lock = ClassificationLock | EmbeddingLock | EmbeddingConfigRows | ClassificationRow(config: nat)

  /** Where a process is, with what it has read or written but not committed. */
  datatype Phase =
    // importer: run_transaction
    | ImportStart(record: Record)
    | ImportHasFirstLock(record: Record)
    | ImportHasBothLocks(record: Record)
    | ImportWrote(record: Record, kb: Kb, outcome: Outcome)
    | ImportDemoted(record: Record, kb: Kb, outcome: Outcome, configs: seq<Config>)
    // embedding backfill and its promotion
    | EmbedStart(files: seq<LocalFile>, scopes: set<Scope>, full: bool)
    | EmbedLoading(files: seq<LocalFile>, scopes: set<Scope>, full: bool, target: nat,
                   existing: Embeddings, expected: Expected, pending: seq<PendingRow>)
    | EmbedUpserted(full: bool, target: nat, expected: Expected)
    | PromoteWants(target: nat, expected: Expected)
    | PromoteHasLock(target: nat, expected: Expected)
    | PromoteHasRows(target: nat, expected: Expected, v1: nat)
    | PromoteIdsChecked(target: nat, expected: Expected, v1: nat)
    | PromoteHashesChecked(target: nat, expected: Expected, v1: nat)
    | PromoteUpdated(target: nat, expected: Expected, v1: nat, configs: seq<Config>)
    // Model 1 backfill and its promotion
    | ClassifyStart(config: nat)
    | Classifying(config: nat, inputs: map<nat, string>, todo: set<nat>)
    | ClassifyPredicting(config: nat, inputs: map<nat, string>, todo: set<nat>, pk: nat)
    | ClassifyHasLock(config: nat, inputs: map<nat, string>)
    | ClassifyHasRow(config: nat, inputs: map<nat, string>)
    | ClassifyCorpusChecked(config: nat, inputs: map<nat, string>)
    | ClassifyVerified(config: nat, inputs: map<nat, string>)
    // committed or rolled back
    | Finished

  datatype System = System(store: Store, procs: seq<Phase>)

  /** Locks are kept from the statement that takes them to the end of the transaction. */
  function Holds(p: Phase): (locks: set<Lock>) {
    match p
    case ImportHasFirstLock(_) => {ClassificationLock}
    case ImportHasBothLocks(_) => {ClassificationLock, EmbeddingLock}
    case ImportWrote(_, _, _) => {ClassificationLock, EmbeddingLock}
    case ImportDemoted(_, _, _, _) => {ClassificationLock, EmbeddingLock, EmbeddingConfigRows}
    case PromoteHasLock(_, _) => {EmbeddingLock}
    case PromoteHasRows(_, _, _) => {EmbeddingLock, EmbeddingConfigRows}
    case PromoteIdsChecked(_, _, _) => {EmbeddingLock, EmbeddingConfigRows}
    case PromoteHashesChecked(_, _, _) => {EmbeddingLock, EmbeddingConfigRows}
    case PromoteUpdated(_, _, _, _) => {EmbeddingLock, EmbeddingConfigRows}
    case ClassifyHasLock(_, _) => {ClassificationLock}
    case ClassifyHasRow(c, _) => {ClassificationLock, ClassificationRow(c)}
    case ClassifyCorpusChecked(c, _) => {ClassificationLock, ClassificationRow(c)}
    case ClassifyVerified(c, _) => {ClassificationLock, ClassificationRow(c)}
    case _ => {}
  }

  // ---------------------------------------------------------------- what one statement reads

  /** The exact current profile versions with these local bytes (_profile_version). */
  function Matching(kb: Kb, file: LocalFile): (pks: set<nat>)
    requires KeysResolve(kb)
  {
    set pk | pk in Current(kb) && kb.profileVersions[pk].profileSha == file.profileSha
             && kb.sourceProfiles[kb.sourceVersions[kb.profileVersions[pk].sourceVersion].sourceProfile].sourceProfileId
                == file.sourceProfileId
  }

  function AllScopes(): (scopes: set<Scope>) { {Purpose, Target, Support, Combined} }

  function ExpectedFor(a: InputHashers, pk: nat, profileSha: string): (rows: Expected) {
    map scope: Scope | scope in AllScopes() :: (pk, scope) := a.embeddingInput(profileSha, scope)
  }

  /** The requested scopes of one profile whose stored hash is missing or different. */
  function PendingFor(a: InputHashers, pk: nat, profileSha: string, target: nat, existing: Embeddings,
                      scopes: seq<Scope>)
    : (rows: seq<PendingRow>)
    ensures forall i :: 0 <= i < |rows| ==>
              rows[i].profileVersion == pk && rows[i].inputSha == a.embeddingInput(profileSha, rows[i].scope)
  {
    if scopes == [] then []
    else
      var init := PendingFor(a, pk, profileSha, target, existing, scopes[..|scopes| - 1]);
      var scope := scopes[|scopes| - 1];
      if (pk, target, scope) in existing && existing[(pk, target, scope)] == a.embeddingInput(profileSha, scope) then
        init
      else init + [PendingRow(pk, scope, a.embeddingInput(profileSha, scope))]
  }

  /** current_model1_input_hashes: what Model 1 would be given for every current profile. */
  function CurrentInputs(a: InputHashers, kb: Kb): (inputs: map<nat, string>)
    requires KeysResolve(kb)
  {
    map pk | pk in Current(kb) ::
      var source := kb.sourceVersions[kb.profileVersions[pk].sourceVersion];
      var notice := kb.notices[kb.sourceProfiles[source.sourceProfile].notice];
      a.model1Input(notice.metadata, kb.profileVersions[pk].profileSha)
  }

  // ---------------------------------------------------------------- steps

  ghost predicate ImporterStep(st: Store, p: Phase, st': Store, p': Phase)
    requires Sound(st.kb)
  {
    match p
    case ImportStart(record) => st' == st && p' == ImportHasFirstLock(record)
    case ImportHasFirstLock(record) => st' == st && p' == ImportHasBothLocks(record)
    case ImportHasBothLocks(record) =>
      && Ingest(st.kb, record).Ok? && st' == st
      && p' == ImportWrote(record, Ingest(st.kb, record).value.0, Ingest(st.kb, record).value.1)
    case ImportWrote(record, kb, outcome) =>
      if outcome.Ingested? then st' == st && p' == ImportDemoted(record, kb, outcome, DemotedV2(st.configs))
      else st' == st.(kb := kb) && p' == Finished
    case ImportDemoted(_, kb, _, configs) => st' == st.(kb := kb, configs := configs) && p' == Finished
    case _ => false
  }

  ghost predicate EmbedderStep(a: InputHashers, st: Store, p: Phase, st': Store, p': Phase)
    requires Sound(st.kb)
  {
    match p
    case EmbedStart(files, scopes, full) =>
      && st' == st
      && exists target :: RowsOf(st.configs, V2) == {target}
           && p' == EmbedLoading(files, scopes, full, target, st.embeddings, map[], [])
    case EmbedLoading(files, scopes, full, target, existing, expected, pending) =>
      if files == [] then
        st' == st.(embeddings := Upserted(st.embeddings, target, pending))
          && p' == EmbedUpserted(full, target, expected)
      else
        && st' == st
        && exists pk, ordered: seq<Scope> ::
             && Matching(st.kb, files[0]) == {pk}
             && (forall scope :: scope in ordered <==> scope in scopes)
             && p' == EmbedLoading(files[1..], scopes, full, target, existing,
                        expected + ExpectedFor(a, pk, files[0].profileSha),
                        pending + PendingFor(a, pk, files[0].profileSha, target, existing, ordered))
    case EmbedUpserted(full, target, expected) =>
      st' == st && p' == if full && (set key | key in expected :: key.0) == Current(st.kb)
                         then PromoteWants(target, expected) else Finished
    case PromoteWants(target, expected) => st' == st && p' == PromoteHasLock(target, expected)
    case PromoteHasLock(target, expected) =>
      && CheckConfigs(st.configs, target).Ok?
      && st' == st && p' == PromoteHasRows(target, expected, CheckConfigs(st.configs, target).value)
    case PromoteHasRows(target, expected, v1) =>
      CoversExactly(expected, Current(st.kb)) && st' == st && p' == PromoteIdsChecked(target, expected, v1)
    case PromoteIdsChecked(target, expected, v1) =>
      HashesMatch(st.embeddings, target, expected) && st' == st && p' == PromoteHashesChecked(target, expected, v1)
    case PromoteHashesChecked(target, expected, v1) =>
      && v1 < |st.configs| && target < |st.configs|
      && st' == st && p' == PromoteUpdated(target, expected, v1, Promoted(st.configs, v1, target))
    case PromoteUpdated(_, _, _, configs) => st' == st.(configs := configs) && p' == Finished
    case _ => false
  }

  ghost predicate ClassifierStep(a: InputHashers, st: Store, p: Phase, st': Store, p': Phase)
    requires Sound(st.kb)
  {
    match p
    case ClassifyStart(config) =>
      var inputs := CurrentInputs(a, st.kb);
      inputs != map[] && st' == st && p' == Classifying(config, inputs, inputs.Keys)
    case Classifying(config, inputs, todo) =>
      if todo == {} then st' == st && p' == ClassifyHasLock(config, inputs)
      else st' == st && exists pk :: pk in todo && pk in inputs && p' == AfterLookup(st, config, inputs, todo, pk)
    case ClassifyPredicting(config, inputs, todo, pk) =>
      pk in inputs && exists succeeded :: PredictionCommits(st, config, inputs, todo, pk, succeeded, st', p')
    case ClassifyHasLock(config, inputs) => st' == st && p' == ClassifyHasRow(config, inputs)
    case ClassifyHasRow(config, inputs) =>
      CurrentInputs(a, st.kb) == inputs && st' == st && p' == ClassifyCorpusChecked(config, inputs)
    case ClassifyCorpusChecked(config, inputs) =>
      EveryCurrentClassified(st, config, inputs) && st' == st && p' == ClassifyVerified(config, inputs)
    case ClassifyVerified(config, _) => st' == st.(activeClassification := Some(config)) && p' == Finished
    case _ => false
  }

  /** has_result: skip a stored OK row with this hash, else predict, with nothing locked. */
  function AfterLookup(st: Store, config: nat, inputs: map<nat, string>, todo: set<nat>, pk: nat): (p': Phase)
    requires pk in inputs
  {
    if (pk, config) in st.classified && st.classified[(pk, config)] == Classified(inputs[pk], true) then
      Classifying(config, inputs, todo - {pk})
    else ClassifyPredicting(config, inputs, todo, pk)
  }

  /** The prediction, or the failure that ends the backfill, replaces whatever row is there by now. */
  ghost predicate PredictionCommits(st: Store, config: nat, inputs: map<nat, string>, todo: set<nat>, pk: nat,
                                    succeeded: bool, st': Store, p': Phase)
    requires pk in inputs
  {
    && st' == st.(classified := st.classified[(pk, config) := Classified(inputs[pk], succeeded)])
    && p' == if succeeded then Classifying(config, inputs, todo - {pk}) else Finished
  }

  ghost predicate EveryCurrentClassified(st: Store, config: nat, inputs: map<nat, string>)
    requires KeysResolve(st.kb)
  {
    forall pk :: pk in Current(st.kb) ==>
      pk in inputs && (pk, config) in st.classified && st.classified[(pk, config)] == Classified(inputs[pk], true)
  }

  /** An error or a lost connection at any point: nothing uncommitted survives. */
  ghost predicate Abort(st: Store, st': Store, p': Phase) {
    st' == st && p' == Finished
  }

  ghost predicate LocalStep(a: InputHashers, st: Store, p: Phase, st': Store, p': Phase)
    requires Sound(st.kb)
  {
    ImporterStep(st, p, st', p') || EmbedderStep(a, st, p, st', p') || ClassifierStep(a, st, p, st', p')
      || Abort(st, st', p')
  }

  /** Process i runs one statement or commits; a lock it takes must be free. */
  ghost predicate Step(a: InputHashers, s: System, s': System, i: nat)
    requires Sound(s.store.kb)
  {
    && i < |s.procs| == |s'.procs|
    && LocalStep(a, s.store, s.procs[i], s'.store, s'.procs[i])
    && (forall j :: 0 <= j < |s.procs| && j != i ==> s'.procs[j] == s.procs[j])
    && (forall j :: 0 <= j < |s.procs| && j != i ==> Holds(s'.procs[i]) !! Holds(s.procs[j]))
  }

  // ---------------------------------------------------------------- the invariant

  /** Every stored v2 row carries the hash of its own profile's assembled input. */
  ghost predicate EmbeddingsFresh(a: InputHashers, st: Store) {
    forall key :: key in st.embeddings && key.1 in RowsOf(st.configs, V2) ==>
      && key.0 < |st.kb.profileVersions|
      && st.embeddings[key] == a.embeddingInput(st.kb.profileVersions[key.0].profileSha, key.2)
  }

  /** An active v2 has, for every current profile, all four rows, each with the hash of that
      profile's own assembled input. */
  ghost predicate ActiveV2IsComplete(a: InputHashers, st: Store)
    requires KeysResolve(st.kb)
  {
    forall config, pk, scope: Scope ::
      config in RowsOf(st.configs, V2) && config in Active(st.configs) && pk in Current(st.kb) ==>
        && (pk, config, scope) in st.embeddings
        && st.embeddings[(pk, config, scope)] == a.embeddingInput(st.kb.profileVersions[pk].profileSha, scope)
  }

  ghost predicate StoreOk(a: InputHashers, st: Store) {
    Sound(st.kb) && EmbeddingsFresh(a, st) && ActiveV2IsComplete(a, st)
  }

  ghost predicate ExpectedOk(a: InputHashers, kb: Kb, expected: Expected) {
    forall key :: key in expected ==>
      key.0 < |kb.profileVersions| && expected[key] == a.embeddingInput(kb.profileVersions[key.0].profileSha, key.1)
  }

  ghost predicate PendingOk(a: InputHashers, kb: Kb, pending: seq<PendingRow>) {
    forall i :: 0 <= i < |pending| ==>
      && pending[i].profileVersion < |kb.profileVersions|
      && pending[i].inputSha
         == a.embeddingInput(kb.profileVersions[pending[i].profileVersion].profileSha, pending[i].scope)
  }

  /** What a process may rely on at each phase because of the locks it holds. */
  ghost predicate PhaseOk(a: InputHashers, st: Store, p: Phase)
    requires Sound(st.kb)
  {
    match p
    case ImportWrote(record, kb, outcome) => Ingest(st.kb, record) == Ok((kb, outcome))
    case ImportDemoted(record, kb, outcome, configs) =>
      Ingest(st.kb, record) == Ok((kb, outcome)) && outcome.Ingested? && configs == DemotedV2(st.configs)
    case EmbedLoading(_, _, _, target, _, expected, pending) =>
      target in RowsOf(st.configs, V2) && ExpectedOk(a, st.kb, expected) && PendingOk(a, st.kb, pending)
    case EmbedUpserted(_, target, expected) => target in RowsOf(st.configs, V2) && ExpectedOk(a, st.kb, expected)
    case PromoteWants(target, expected) => target in RowsOf(st.configs, V2) && ExpectedOk(a, st.kb, expected)
    case PromoteHasLock(target, expected) => target in RowsOf(st.configs, V2) && ExpectedOk(a, st.kb, expected)
    case PromoteHasRows(target, expected, v1) =>
      ExpectedOk(a, st.kb, expected) && CheckConfigs(st.configs, target) == Ok(v1)
    case PromoteIdsChecked(target, expected, v1) =>
      ExpectedOk(a, st.kb, expected) && CheckConfigs(st.configs, target) == Ok(v1)
        && CoversExactly(expected, Current(st.kb))
    case PromoteHashesChecked(target, expected, v1) =>
      && ExpectedOk(a, st.kb, expected) && CheckConfigs(st.configs, target) == Ok(v1)
      && CoversExactly(expected, Current(st.kb)) && HashesMatch(st.embeddings, target, expected)
    case PromoteUpdated(target, expected, v1, configs) =>
      && ExpectedOk(a, st.kb, expected) && CheckConfigs(st.configs, target) == Ok(v1)
      && CoversExactly(expected, Current(st.kb)) && HashesMatch(st.embeddings, target, expected)
      && v1 < |st.configs| && target < |st.configs| && configs == Promoted(st.configs, v1, target)
    case ClassifyCorpusChecked(_, inputs) => CurrentInputs(a, st.kb) == inputs
    case ClassifyVerified(_, inputs) => CurrentInputs(a, st.kb) == inputs
    case _ => true
  }

  ghost predicate Inv(a: InputHashers, s: System) {
    && StoreOk(a, s.store)
    && (forall i :: 0 <= i < |s.procs| ==> PhaseOk(a, s.store, s.procs[i]))
    && (forall i, j :: 0 <= i < j < |s.procs| ==> Holds(s.procs[i]) !! Holds(s.procs[j]))
  }

  /** A process can only change what its locks cover, whatever step it takes. */
  ghost predicate Changes(a: InputHashers, st: Store, st': Store, held: set<Lock>) {
    && Grows(st.kb, st'.kb)
    && (st'.kb != st.kb ==> ClassificationLock in held && EmbeddingLock in held)
    && (st'.configs != st.configs ==> EmbeddingConfigRows in held)
    && OthersKept(st.configs, st'.configs)
    && st.embeddings.Keys <= st'.embeddings.Keys
  }

  /** So whatever another process relies on survives the step. */
  lemma PhaseSurvives(a: InputHashers, st: Store, st': Store, held: set<Lock>, q: Phase)
    requires StoreOk(a, st) && StoreOk(a, st') && Changes(a, st, st', held)
    requires PhaseOk(a, st, q) && Holds(q) !! held
    ensures PhaseOk(a, st', q)
  {
    hide Ingest, Sound, ActiveV2IsComplete, DemotedV2, CheckConfigs, Promoted, CoversExactly;
    assert RowsOf(st'.configs, V2) == RowsOf(st.configs, V2);
    if q.PromoteHashesChecked? || q.PromoteUpdated? {
      SoundResolves(st.kb);
      HashesStay(a, st, st', q.target, q.expected);
    }
  }

  /** Backfills running beside a promotion may add v2 rows and rewrite them, but only with the
      hash they must have, so a verified set of rows stays verified. */
  lemma HashesStay(a: InputHashers, st: Store, st': Store, target: nat, expected: Expected)
    requires Sound(st.kb) && Sound(st'.kb) && EmbeddingsFresh(a, st') && ExpectedOk(a, st.kb, expected)
             && SameProfiles(st.kb, st'.kb)
    requires CheckConfigs(st.configs, target).Ok? && RowsOf(st'.configs, V2) == RowsOf(st.configs, V2)
    requires HashesMatch(st.embeddings, target, expected) && st.embeddings.Keys <= st'.embeddings.Keys
    ensures HashesMatch(st'.embeddings, target, expected)
  {
    forall key | key in expected
      ensures (key.0, target, key.1) in st'.embeddings && st'.embeddings[(key.0, target, key.1)] == expected[key]
    {
      assert target in RowsOf(st'.configs, V2);
      var stored := (key.0, target, key.1);
      assert stored in st.embeddings;
      assert stored in st'.embeddings;
      assert st'.kb.profileVersions[key.0].(isCurrent := false) == st.kb.profileVersions[key.0].(isCurrent := false);
    }
  }

  // ---------------------------------------------------------------- every step keeps the invariant

  /** Committing an ingest keeps v2 complete: either the current set is as it was, or the same
      transaction has deactivated every v2 row. */
  lemma ImporterKeeps(a: InputHashers, st: Store, p: Phase, st': Store, p': Phase)
    requires StoreOk(a, st) && PhaseOk(a, st, p) && ImporterStep(st, p, st', p')
    ensures StoreOk(a, st') && PhaseOk(a, st', p') && Changes(a, st, st', Holds(p))
  {
    hide Ingest, Sound, DemotedV2, CheckConfigs, EmbeddingsFresh;
    if p.ImportWrote? && p.outcome.AlreadyIngested? {
      SoundResolves(st.kb);
      IngestKeepsLedger(st.kb, p.record);
      AlreadyIngestedKeepsCurrentSet(st.kb, p.record);
      FreshAfterImport(a, st, st');
    } else if p.ImportDemoted? {
      SoundResolves(st.kb);
      IngestKeepsLedger(st.kb, p.record);
      DemotionLeavesNoActiveV2(st.configs);
      InactiveV2IsSafe(a, st');
      FreshAfterImport(a, st, st');
    }
  }

  lemma InactiveV2IsSafe(a: InputHashers, st: Store)
    requires Sound(st.kb) && RowsOf(st.configs, V2) * Active(st.configs) == {}
    ensures ActiveV2IsComplete(a, st)
  {
    forall config: nat ensures !(config in RowsOf(st.configs, V2) && config in Active(st.configs)) {
      assert config in RowsOf(st.configs, V2) * Active(st.configs)
             <==> config in RowsOf(st.configs, V2) && config in Active(st.configs);
    }
  }

  lemma FreshAfterImport(a: InputHashers, st: Store, st': Store)
    requires EmbeddingsFresh(a, st) && SameProfiles(st.kb, st'.kb) && OthersKept(st.configs, st'.configs)
    requires st'.embeddings == st.embeddings
    ensures EmbeddingsFresh(a, st')
  {
    forall key | key in st'.embeddings && key.1 in RowsOf(st'.configs, V2)
      ensures key.0 < |st'.kb.profileVersions|
      ensures st'.embeddings[key] == a.embeddingInput(st'.kb.profileVersions[key.0].profileSha, key.2)
    {
      assert key.1 in RowsOf(st.configs, V2);
      assert st'.kb.profileVersions[key.0].(isCurrent := false) == st.kb.profileVersions[key.0].(isCurrent := false);
    }
  }

  lemma UpsertKeeps(a: InputHashers, st: Store, st': Store, target: nat, pending: seq<PendingRow>)
    requires StoreOk(a, st) && PendingOk(a, st.kb, pending)
    requires st' == st.(embeddings := Upserted(st.embeddings, target, pending))
    ensures StoreOk(a, st') && st.embeddings.Keys <= st'.embeddings.Keys
  {
    hide Sound, Upserted;
    SoundResolves(st.kb);
    forall key: (nat, nat, Scope)
      ensures key in st.embeddings ==> key in st'.embeddings
      ensures key in st'.embeddings && !(key in st.embeddings && st'.embeddings[key] == st.embeddings[key]) ==>
                && key.0 < |st.kb.profileVersions|
                && st'.embeddings[key] == a.embeddingInput(st.kb.profileVersions[key.0].profileSha, key.2)
    {
      UpsertedKeys(st.embeddings, target, pending, key);
    }
    forall config, pk, scope: Scope | config in RowsOf(st'.configs, V2) && config in Active(st'.configs)
       && pk in Current(st'.kb)
      ensures (pk, config, scope) in st'.embeddings
      ensures st'.embeddings[(pk, config, scope)] == a.embeddingInput(st'.kb.profileVersions[pk].profileSha, scope)
    {
      assert (pk, config, scope) in st.embeddings;
    }
  }

  /** The promotion commits only what it verified under the locks. */
  lemma PromotionKeeps(a: InputHashers, st: Store, st': Store, p: Phase)
    requires StoreOk(a, st) && p.PromoteUpdated? && PhaseOk(a, st, p) && st' == st.(configs := p.configs)
    ensures StoreOk(a, st') && OthersKept(st.configs, st'.configs)
  {
    hide Sound, CheckConfigs, Promoted;
    SoundResolves(st.kb);
    PromotionLeavesOnlyV2(st.configs, p.target);
    assert RowsOf(st'.configs, V2) == RowsOf(st.configs, V2);
    forall config, pk, scope: Scope | config in RowsOf(st'.configs, V2) && config in Active(st'.configs)
       && pk in Current(st'.kb)
      ensures (pk, config, scope) in st'.embeddings
      ensures st'.embeddings[(pk, config, scope)] == a.embeddingInput(st'.kb.profileVersions[pk].profileSha, scope)
    {
      assert config == p.target;
      assert scope.Purpose? || scope.Target? || scope.Support? || scope.Combined?;
      assert (pk, scope) in p.expected;
    }
  }

  lemma LoadKeeps(a: InputHashers, kb: Kb, pk: nat, file: LocalFile, target: nat, existing: Embeddings,
                  expected: Expected, pending: seq<PendingRow>, ordered: seq<Scope>)
    requires KeysResolve(kb) && Matching(kb, file) == {pk} && ExpectedOk(a, kb, expected) && PendingOk(a, kb, pending)
    ensures ExpectedOk(a, kb, expected + ExpectedFor(a, pk, file.profileSha))
    ensures PendingOk(a, kb, pending + PendingFor(a, pk, file.profileSha, target, existing, ordered))
  {
    assert pk in Matching(kb, file);
  }

  lemma EmbedderKeeps(a: InputHashers, st: Store, p: Phase, st': Store, p': Phase)
    requires StoreOk(a, st) && PhaseOk(a, st, p) && EmbedderStep(a, st, p, st', p')
    ensures StoreOk(a, st') && PhaseOk(a, st', p') && Changes(a, st, st', Holds(p))
  {
    hide Ingest, Sound, CheckConfigs, Promoted, Upserted, ActiveV2IsComplete, EmbeddingsFresh, ExpectedFor, PendingFor,
      Matching,
         CoversExactly, HashesMatch, ExpectedOk, PendingOk, RowsOf, Current, Active;
    SoundResolves(st.kb);
    match p {
      case EmbedStart(files, scopes, full) => NothingLoadedYet(a, st.kb);
      case EmbedLoading(files, scopes, full, target, existing, expected, pending) =>
        if files == [] {
          UpsertKeeps(a, st, st', target, pending);
        } else {
          var pk, ordered: seq<Scope> :|
            && Matching(st.kb, files[0]) == {pk}
            && (forall scope :: scope in ordered <==> scope in scopes)
            && p' == EmbedLoading(files[1..], scopes, full, target, existing,
                       expected + ExpectedFor(a, pk, files[0].profileSha),
                       pending + PendingFor(a, pk, files[0].profileSha, target, existing, ordered));
          LoadKeeps(a, st.kb, pk, files[0], target, existing, expected, pending, ordered);
        }
      case PromoteUpdated(_, _, _, _) => PromotionKeeps(a, st, st', p);
      case _ =>
    }
  }

  lemma NothingLoadedYet(a: InputHashers, kb: Kb)
    ensures ExpectedOk(a, kb, map[]) && PendingOk(a, kb, [])
  {
  }

  lemma StoreOkMeansSound(a: InputHashers, st: Store)
    requires StoreOk(a, st)
    ensures Sound(st.kb) && KeysResolve(st.kb)
  {
  }

  lemma SameTables(a: InputHashers, st: Store, st': Store)
    requires StoreOk(a, st)
             && st' == st.(classified := st'.classified, activeClassification := st'.activeClassification)
    ensures StoreOk(a, st')
  {
  }

  lemma ClassifierKeeps(a: InputHashers, st: Store, p: Phase, st': Store, p': Phase)
    requires StoreOk(a, st) && PhaseOk(a, st, p) && ClassifierStep(a, st, p, st', p')
    ensures StoreOk(a, st') && PhaseOk(a, st', p') && Changes(a, st, st', Holds(p))
  {
    hide Sound, CurrentInputs, StoreOk, EmbeddingsFresh, ActiveV2IsComplete, EveryCurrentClassified, PhaseOk;
    StoreOkMeansSound(a, st);
    SameTables(a, st, st');
    ClassifierPhaseIsOk(a, st, p, st', p');
  }

  lemma ClassifierPhaseIsOk(a: InputHashers, st: Store, p: Phase, st': Store, p': Phase)
    requires Sound(st.kb) && PhaseOk(a, st, p) && ClassifierStep(a, st, p, st', p') && st'.kb == st.kb
    ensures PhaseOk(a, st', p')
  {
    hide Sound, CurrentInputs, EveryCurrentClassified;
  }

  /** Any statement or commit of any process keeps the invariant of the whole system. */
  lemma StepKeepsInv(a: InputHashers, s: System, s': System, i: nat)
    requires Inv(a, s) && Step(a, s, s', i)
    ensures Inv(a, s')
  {
    hide StoreOk, PhaseOk, Changes, ImporterStep, EmbedderStep, ClassifierStep, Sound;
    var st, p, st', p' := s.store, s.procs[i], s'.store, s'.procs[i];
    LocalStepKeeps(a, st, p, st', p');
    forall j | 0 <= j < |s.procs| ensures PhaseOk(a, st', s'.procs[j]) {
      if j != i {
        assert Holds(s.procs[j]) !! Holds(p);
        PhaseSurvives(a, st, st', Holds(p), s.procs[j]);
      }
    }
  }

  lemma LocalStepKeeps(a: InputHashers, st: Store, p: Phase, st': Store, p': Phase)
    requires StoreOk(a, st) && PhaseOk(a, st, p) && LocalStep(a, st, p, st', p')
    ensures Sound(st'.kb)
    ensures StoreOk(a, st') && PhaseOk(a, st', p') && Changes(a, st, st', Holds(p))
  {
    hide ImporterStep, EmbedderStep, ClassifierStep, Sound, Holds, EmbeddingsFresh, ActiveV2IsComplete;
    if ImporterStep(st, p, st', p') {
      ImporterKeeps(a, st, p, st', p');
    } else if EmbedderStep(a, st, p, st', p') {
      EmbedderKeeps(a, st, p, st', p');
    } else if ClassifierStep(a, st, p, st', p') {
      ClassifierKeeps(a, st, p, st', p');
    }
  }

  // ---------------------------------------------------------------- whole runs

  ghost predicate Initial(a: InputHashers, s: System) {
    && StoreOk(a, s.store)
    && forall i :: 0 <= i < |s.procs| ==> s.procs[i].ImportStart? || s.procs[i].EmbedStart? || s.procs[i].ClassifyStart?
  }

  /** Any number of processes, interleaved in any way, each free to fail at any point. */
  ghost predicate Run(a: InputHashers, trace: seq<System>) {
    && |trace| > 0 && Initial(a, trace[0])
    && forall k :: 0 < k < |trace| ==> SomeStep(a, trace[k - 1], trace[k])
  }

  ghost predicate SomeStep(a: InputHashers, s: System, s': System) {
    Sound(s.store.kb) && exists i: nat :: Step(a, s, s', i)
  }

  lemma {:induction false} RunKeepsInv(a: InputHashers, trace: seq<System>, k: nat)
    requires Run(a, trace) && k < |trace|
    ensures Inv(a, trace[k])
  {
    hide Sound, StoreOk, PhaseOk, Step, Inv;
    if k == 0 {
      InitialInv(a, trace[0]);
    } else {
      RunKeepsInv(a, trace, k - 1);
      assert SomeStep(a, trace[k - 1], trace[k]);
      var i: nat :| Step(a, trace[k - 1], trace[k], i);
      StepKeepsInv(a, trace[k - 1], trace[k], i);
    }
  }

  lemma InitialInv(a: InputHashers, s: System)
    requires Initial(a, s)
    ensures Inv(a, s)
  {
    hide StoreOk;
    StoreOkMeansSound(a, s.store);
  }

  /** Over every run: whenever v2 is active, every current profile has all four scope rows
      under it and each row's hash is that of the profile's own assembled input. */
  lemma ActiveV2IsAlwaysComplete(a: InputHashers, trace: seq<System>, k: nat)
    requires Run(a, trace) && k < |trace|
    ensures Sound(trace[k].store.kb) && ActiveV2IsComplete(a, trace[k].store)
  {
    hide Sound, ActiveV2IsComplete, EmbeddingsFresh, PhaseOk;
    RunKeepsInv(a, trace, k);
  }

  ghost predicate PromotesTo(configs: seq<Config>, target: nat, configs': seq<Config>) {
    && CheckConfigs(configs, target).Ok?
    && CheckConfigs(configs, target).value < |configs| && target < |configs|
    && configs' == Promoted(configs, CheckConfigs(configs, target).value, target)
  }

  /** The statements of one promotion with nothing in between, and its commit. */
  ghost predicate PromotionPath(a: InputHashers, st: Store, target: nat, expected: Expected, path: seq<Phase>,
                                st': Store)
    requires Sound(st.kb)
  {
    && |path| == 7 && path[0] == PromoteWants(target, expected) && path[5].PromoteUpdated? && path[6] == Finished
    && (forall k :: 0 <= k < 5 ==> EmbedderStep(a, st, path[k], st, path[k + 1]))
    && EmbedderStep(a, st, path[5], st', path[6])
  }

  /** What follows each statement of a promotion. */
  ghost predicate PromotionGoesOn(st: Store, p: Phase, st': Store, p': Phase)
    requires KeysResolve(st.kb)
  {
    match p
    case PromoteWants(target, expected) => st' == st && p' == PromoteHasLock(target, expected)
    case PromoteHasLock(target, expected) =>
      var v1 := CheckConfigs(st.configs, target);
      v1.Ok? && st' == st && p' == PromoteHasRows(target, expected, v1.value)
    case PromoteHasRows(target, expected, v1) =>
      CoversExactly(expected, Current(st.kb)) && st' == st && p' == PromoteIdsChecked(target, expected, v1)
    case PromoteIdsChecked(target, expected, v1) =>
      HashesMatch(st.embeddings, target, expected) && st' == st && p' == PromoteHashesChecked(target, expected, v1)
    case PromoteHashesChecked(target, expected, v1) =>
      v1 < |st.configs| && target < |st.configs| && st' == st
      && p' == PromoteUpdated(target, expected, v1, Promoted(st.configs, v1, target))
    case PromoteUpdated(_, _, _, configs) => st' == st.(configs := configs) && p' == Finished
    case _ => false
  }

  predicate Promotes(p: Phase) {
    p.PromoteWants? || p.PromoteHasLock? || p.PromoteHasRows? || p.PromoteIdsChecked? || p.PromoteHashesChecked?
      || p.PromoteUpdated?
  }

  lemma PromotionStep(a: InputHashers, st: Store, p: Phase, st': Store, p': Phase)
    requires Sound(st.kb) && Promotes(p)
    ensures KeysResolve(st.kb)
    ensures EmbedderStep(a, st, p, st', p') <==> PromotionGoesOn(st, p, st', p')
  {
    SoundResolves(st.kb);
    hide Sound, CheckConfigs, CoversExactly, HashesMatch, Promoted, Current;
  }

  /** An uninterrupted promotion commits exactly when _activate_v2_after_verified_backfill succeeds
      on the tables it finds, and commits the configurations that it leaves. */
  lemma UninterruptedPromotion(a: InputHashers, st: Store, target: nat, expected: Expected, st': Store)
    requires Sound(st.kb)
    ensures KeysResolve(st.kb)
    ensures var r := Activate(st.configs, st.embeddings, Current(st.kb), target, expected);
            (exists path :: PromotionPath(a, st, target, expected, path, st'))
            <==> r.Ok? && st' == st.(configs := r.value)
  {
    SoundResolves(st.kb);
    hide PromotionPath, Activate;
    if path :| PromotionPath(a, st, target, expected, path, st') {
      PathActivates(a, st, target, expected, path, st');
    }
    if Activate(st.configs, st.embeddings, Current(st.kb), target, expected).Ok?
       && st' == st.(configs := Activate(st.configs, st.embeddings, Current(st.kb), target, expected).value) {
      var path := ActivationPath(a, st, target, expected, st');
    }
  }

  lemma PathActivates(a: InputHashers, st: Store, target: nat, expected: Expected, path: seq<Phase>, st': Store)
    requires Sound(st.kb) && PromotionPath(a, st, target, expected, path, st')
    ensures KeysResolve(st.kb)
    ensures var r := Activate(st.configs, st.embeddings, Current(st.kb), target, expected);
            r.Ok? && st' == st.(configs := r.value)
  {
    SoundResolves(st.kb);
    hide Sound, EmbedderStep, CheckConfigs, CoversExactly, HashesMatch, Promoted, Current, KeysResolve;
    PromotionStep(a, st, path[0], st, path[0 + 1]);
    PromotionStep(a, st, path[1], st, path[1 + 1]);
    PromotionStep(a, st, path[2], st, path[2 + 1]);
    PromotionStep(a, st, path[3], st, path[3 + 1]);
    PromotionStep(a, st, path[4], st, path[4 + 1]);
    PromotionStep(a, st, path[5], st', path[6]);
  }

  lemma ActivationPath(a: InputHashers, st: Store, target: nat, expected: Expected, st': Store)
    returns (path: seq<Phase>)
    requires Sound(st.kb) && KeysResolve(st.kb)
    requires var r := Activate(st.configs, st.embeddings, Current(st.kb), target, expected);
             r.Ok? && st' == st.(configs := r.value)
    ensures PromotionPath(a, st, target, expected, path, st')
  {
    hide Sound, EmbedderStep, CheckConfigs, CoversExactly, HashesMatch, Promoted, Current, KeysResolve, PromotionPath,
         Active, RowsOf, OthersKept;
    PromotionLeavesOnlyV2(st.configs, target);
    var v1 := CheckConfigs(st.configs, target).value;
    var p2, p3 := ChecksPass(a, st, target, expected, v1);
    var p4, p5 := UpdatesPass(a, st, target, expected, v1, st');
    path := [PromoteWants(target, expected), PromoteHasLock(target, expected), p2, p3, p4, p5, Finished];
    hide *;
    IsPath(a, st, target, expected, path, st');
  }

  lemma ChecksPass(a: InputHashers, st: Store, target: nat, expected: Expected, v1: nat) returns (p2: Phase, p3: Phase)
    requires Sound(st.kb) && KeysResolve(st.kb)
    requires CheckConfigs(st.configs, target) == Ok(v1) && CoversExactly(expected, Current(st.kb))
    ensures p3 == PromoteIdsChecked(target, expected, v1)
    ensures EmbedderStep(a, st, PromoteWants(target, expected), st, PromoteHasLock(target, expected))
    ensures EmbedderStep(a, st, PromoteHasLock(target, expected), st, p2) && EmbedderStep(a, st, p2, st, p3)
  {
    hide Sound, EmbedderStep, CheckConfigs, CoversExactly, Current, KeysResolve;
    p2, p3 := PromoteHasRows(target, expected, v1), PromoteIdsChecked(target, expected, v1);
    PromotionStep(a, st, PromoteWants(target, expected), st, PromoteHasLock(target, expected));
    PromotionStep(a, st, PromoteHasLock(target, expected), st, p2);
    PromotionStep(a, st, p2, st, p3);
  }

  lemma UpdatesPass(a: InputHashers, st: Store, target: nat, expected: Expected, v1: nat, st': Store)
    returns (p4: Phase, p5: Phase)
    requires Sound(st.kb) && KeysResolve(st.kb) && HashesMatch(st.embeddings, target, expected)
    requires v1 < |st.configs| && target < |st.configs| && st' == st.(configs := Promoted(st.configs, v1, target))
    ensures EmbedderStep(a, st, PromoteIdsChecked(target, expected, v1), st, p4)
    ensures EmbedderStep(a, st, p4, st, p5) && p5.PromoteUpdated? && EmbedderStep(a, st, p5, st', Finished)
  {
    hide Sound, EmbedderStep, HashesMatch, Promoted, KeysResolve;
    p4, p5 := PromoteHashesChecked(target, expected, v1), PromoteUpdated(target, expected, v1, st'.configs);
    PromotionStep(a, st, PromoteIdsChecked(target, expected, v1), st, p4);
    PromotionStep(a, st, p4, st, p5);
    PromotionStep(a, st, p5, st', Finished);
  }

  lemma IsPath(a: InputHashers, st: Store, target: nat, expected: Expected, path: seq<Phase>, st': Store)
    requires Sound(st.kb) && |path| == 7
    requires path[0] == PromoteWants(target, expected) && path[5].PromoteUpdated? && path[6] == Finished
    requires EmbedderStep(a, st, path[0], st, path[1]) && EmbedderStep(a, st, path[1], st, path[2])
    requires EmbedderStep(a, st, path[2], st, path[3]) && EmbedderStep(a, st, path[3], st, path[4])
    requires EmbedderStep(a, st, path[4], st, path[5]) && EmbedderStep(a, st, path[5], st', path[6])
    ensures PromotionPath(a, st, target, expected, path, st')
  {
    hide EmbedderStep, Sound;
    forall k | 0 <= k < 5 ensures EmbedderStep(a, st, path[k], st, path[k + 1]) {
      assert k == 0 || k == 1 || k == 2 || k == 3 || k == 4;
    }
  }

  /** The only ways a step changes the configuration table. */
  lemma ConfigStep(a: InputHashers, s: System, s': System, i: nat)
    requires Inv(a, s) && Step(a, s, s', i)
    ensures || s'.store.configs == s.store.configs
            || s'.store.configs == DemotedV2(s.store.configs)
            || exists target: nat :: PromotesTo(s.store.configs, target, s'.store.configs)
  {
    hide StoreOk, Sound, CheckConfigs, Promoted, DemotedV2, Ingest, CoversExactly, HashesMatch, ExpectedOk, PendingOk,
         RowsOf, Current, CurrentInputs, EveryCurrentClassified, Upserted;
    StoreOkMeansSound(a, s.store);
    var p := s.procs[i];
    if p.PromoteUpdated? {
      assert PhaseOk(a, s.store, p);
      assert PromotesTo(s.store.configs, p.target, p.configs);
    }
  }

  /** Over every run that starts with one active configuration and one v1 row: exactly one
      configuration is active at every point, and no configuration other than v1 and v2 is
      ever switched on or off. */
  lemma {:induction false} ExactlyOneActiveAlways(a: InputHashers, trace: seq<System>, k: nat, v1: nat)
    requires Run(a, trace) && k < |trace|
    requires RowsOf(trace[0].store.configs, V1) == {v1}
    requires exists c :: Active(trace[0].store.configs) == {c}
    ensures exists c :: Active(trace[k].store.configs) == {c}
    ensures OthersKept(trace[0].store.configs, trace[k].store.configs)
  {
    hide Inv, Step, Initial, CheckConfigs, Promoted, DemotedV2, Sound, RowsOf;
    if k > 0 {
      ExactlyOneActiveAlways(a, trace, k - 1, v1);
      RunKeepsInv(a, trace, k - 1);
      assert SomeStep(a, trace[k - 1], trace[k]);
      var i: nat :| Step(a, trace[k - 1], trace[k], i);
      ConfigStep(a, trace[k - 1], trace[k], i);
      SameRows(trace[0].store.configs, trace[k - 1].store.configs, V1);
      OneActiveStep(trace[k - 1].store.configs, trace[k].store.configs, v1);
    }
  }

  lemma SameRows(configs: seq<Config>, configs': seq<Config>, assembly: Assembly)
    requires OthersKept(configs, configs')
    ensures RowsOf(configs, assembly) == RowsOf(configs', assembly)
  {
  }

  lemma OneActiveStep(before: seq<Config>, after: seq<Config>, v1: nat)
    requires RowsOf(before, V1) == {v1} && exists c :: Active(before) == {c}
    requires after == before || after == DemotedV2(before) || exists target: nat :: PromotesTo(before, target, after)
    ensures OthersKept(before, after) && exists c :: Active(after) == {c}
  {
    hide CheckConfigs, Promoted, DemotedV2;
    if after == DemotedV2(before) {
      var c :| Active(before) == {c};
      DemotionKeepsOneActive(before, c);
    } else if after != before {
      var target: nat :| PromotesTo(before, target, after);
      PromotionLeavesOnlyV2(before, target);
    }
  }

  /** Over every run: when a Model 1 backfill is about to promote, there is an earlier moment at
      which it verified an OK row with the re-assembled input hash for every current profile, and
      since that moment no importer has been able to change any Model 1 input, not even by
      rewriting the metadata of a notice it had already ingested. */
  lemma {:induction false} ModelOnePromotesTheVerifiedCorpus(a: InputHashers, trace: seq<System>, k: nat, i: nat)
    returns (verified: nat)
    requires Run(a, trace) && k < |trace| && i < |trace[k].procs| && trace[k].procs[i].ClassifyVerified?
    ensures verified < k && Sound(trace[verified].store.kb)
    ensures EveryCurrentClassified(trace[verified].store, trace[k].procs[i].config, trace[k].procs[i].inputs)
    ensures forall l :: verified <= l <= k ==>
              Sound(trace[l].store.kb) && CurrentInputs(a, trace[l].store.kb) == trace[k].procs[i].inputs
  {
    hide Inv, Step, Initial, Sound, CurrentInputs, EveryCurrentClassified;
    RunKeepsInv(a, trace, k);
    CorpusHeld(a, trace[k], i);
    NotInitially(a, trace, i);
    RunKeepsInv(a, trace, k - 1);
    assert SomeStep(a, trace[k - 1], trace[k]);
    var mover: nat :| Step(a, trace[k - 1], trace[k], mover);
    HowVerified(a, trace[k - 1], trace[k], mover, i);
    CorpusHeld(a, trace[k - 1], i);
    if trace[k - 1].procs[i].ClassifyVerified? {
      verified := ModelOnePromotesTheVerifiedCorpus(a, trace, k - 1, i);
    } else {
      verified := k - 1;
    }
  }

  /** While a Model 1 promoter is past its corpus check, its inputs are the current ones. */
  lemma CorpusHeld(a: InputHashers, s: System, i: nat)
    requires Inv(a, s) && i < |s.procs| && (s.procs[i].ClassifyVerified? || s.procs[i].ClassifyCorpusChecked?)
    ensures Sound(s.store.kb) && CurrentInputs(a, s.store.kb) == s.procs[i].inputs
  {
    hide Sound, CurrentInputs, EmbeddingsFresh, ActiveV2IsComplete;
    assert PhaseOk(a, s.store, s.procs[i]);
  }

  lemma NotInitially(a: InputHashers, trace: seq<System>, i: nat)
    requires Run(a, trace)
    ensures i < |trace[0].procs| ==> !trace[0].procs[i].ClassifyVerified?
  {
    hide StoreOk;
  }

  lemma HowVerified(a: InputHashers, s: System, s': System, mover: nat, i: nat)
    requires Sound(s.store.kb) && Step(a, s, s', mover) && i < |s'.procs| && s'.procs[i].ClassifyVerified?
    ensures i < |s.procs|
    ensures || s.procs[i] == s'.procs[i]
            || (&& s.procs[i] == ClassifyCorpusChecked(s'.procs[i].config, s'.procs[i].inputs)
                && EveryCurrentClassified(s.store, s'.procs[i].config, s'.procs[i].inputs))
  {
    hide Sound, LocalStep, EveryCurrentClassified;
    if mover == i {
      OnlyVerificationLeadsHere(a, s.store, s.procs[i], s'.store, s'.procs[i]);
    }
  }

  lemma OnlyVerificationLeadsHere(a: InputHashers, st: Store, p: Phase, st': Store, p': Phase)
    requires Sound(st.kb) && LocalStep(a, st, p, st', p') && p'.ClassifyVerified?
    ensures p == ClassifyCorpusChecked(p'.config, p'.inputs) && EveryCurrentClassified(st, p'.config, p'.inputs)
  {
    hide Sound, CurrentInputs, EveryCurrentClassified, Ingest, DemotedV2, Matching, CheckConfigs, Promoted;
  }

  /** A backfill that may still write a row other than the verified one: it looked before the row
      was there, or it works on inputs that are no longer current. */
  ghost predicate Straggles(p: Phase, config: nat, inputs: map<nat, string>) {
    match p
    case Classifying(c, mine, todo) => c == config && Outdated(mine, todo, inputs)
    case ClassifyPredicting(c, mine, todo, pk) =>
      c == config && pk in mine && (pk in inputs || Outdated(mine, todo, inputs))
    case _ => false
  }

  ghost predicate Outdated(mine: map<nat, string>, todo: set<nat>, inputs: map<nat, string>) {
    exists pk :: pk in todo && pk in mine && pk in inputs && mine[pk] != inputs[pk]
  }

  ghost predicate NoStragglers(s: System, config: nat, inputs: map<nat, string>) {
    forall j :: 0 <= j < |s.procs| ==> !Straggles(s.procs[j], config, inputs)
  }

  /** The corpus is the one with these inputs, and every profile of it has its OK row. */
  ghost predicate Verified(a: InputHashers, st: Store, config: nat, inputs: map<nat, string>) {
    Sound(st.kb) && CurrentInputs(a, st.kb) == inputs && EveryCurrentClassified(st, config, inputs)
  }

  lemma RowsOfOthersStay(a: InputHashers, st: Store, p: Phase, st': Store, p': Phase)
    requires Sound(st.kb) && (ImporterStep(st, p, st', p') || EmbedderStep(a, st, p, st', p') || Abort(st, st', p'))
    ensures st'.classified == st.classified && !p'.Classifying? && !p'.ClassifyPredicting?
  {
    hide Sound, Ingest, DemotedV2, Matching, CheckConfigs, Promoted, Upserted, CoversExactly, HashesMatch, Current,
         ExpectedFor, PendingFor, RowsOf;
  }

  lemma RowsStay(a: InputHashers, st: Store, st': Store, config: nat, inputs: map<nat, string>)
    requires Verified(a, st, config, inputs) && Sound(st'.kb) && CurrentInputs(a, st'.kb) == inputs
    requires forall pk :: pk in inputs && (pk, config) in st.classified ==>
               (pk, config) in st'.classified && st'.classified[(pk, config)] == st.classified[(pk, config)]
    ensures Verified(a, st', config, inputs)
  {
    hide Sound, Current;
    SoundResolves(st.kb);
    SoundResolves(st'.kb);
    assert Current(st.kb) == inputs.Keys == Current(st'.kb);
  }

  lemma ClassifierKeepsRows(a: InputHashers, st: Store, p: Phase, st': Store, p': Phase, config: nat,
                            inputs: map<nat, string>)
    requires Verified(a, st, config, inputs) && ClassifierStep(a, st, p, st', p') && !Straggles(p, config, inputs)
    ensures !Straggles(p', config, inputs)
    ensures forall pk :: pk in inputs && (pk, config) in st.classified ==>
              (pk, config) in st'.classified && st'.classified[(pk, config)] == st.classified[(pk, config)]
  {
    hide Sound, CurrentInputs, EveryCurrentClassified;
    if p.Classifying? && p.todo != {} {
      LookupKeepsUp(a, st, p, p', config, inputs);
    }
  }

  /** Whoever works on the current inputs finds every verified row. */
  lemma LookupKeepsUp(a: InputHashers, st: Store, p: Phase, p': Phase, config: nat, inputs: map<nat, string>)
    requires Verified(a, st, config, inputs) && p.Classifying? && !Straggles(p, config, inputs)
    requires exists pk :: pk in p.todo && pk in p.inputs && p' == AfterLookup(st, p.config, p.inputs, p.todo, pk)
    ensures !Straggles(p', config, inputs)
  {
    hide Sound;
    SoundResolves(st.kb);
    assert Current(st.kb) == inputs.Keys;
  }

  lemma StepKeepsVerifiedRows(a: InputHashers, s: System, s': System, i: nat, config: nat, inputs: map<nat, string>)
    requires Verified(a, s.store, config, inputs) && Step(a, s, s', i)
    requires Sound(s'.store.kb) && CurrentInputs(a, s'.store.kb) == inputs && NoStragglers(s, config, inputs)
    ensures Verified(a, s'.store, config, inputs) && NoStragglers(s', config, inputs)
  {
    hide Sound, ImporterStep, EmbedderStep, ClassifierStep, Verified, CurrentInputs;
    VerifiedIsSound(a, s.store, config, inputs);
    var (p, p') := (s.procs[i], s'.procs[i]);
    if ClassifierStep(a, s.store, p, s'.store, p') {
      ClassifierKeepsRows(a, s.store, p, s'.store, p', config, inputs);
    } else {
      RowsOfOthersStay(a, s.store, p, s'.store, p');
    }
    RowsStay(a, s.store, s'.store, config, inputs);
  }

  /** Over every run: the rows that a Model 1 promoter verified stay OK with the verified hashes for
      as long as the corpus is held, if no backfill of the configuration straggles ... */
  lemma {:induction false} VerifiedRowsStayOk(a: InputHashers, trace: seq<System>, verified: nat, k: nat, config: nat,
                                              inputs: map<nat, string>)
    requires Run(a, trace) && verified <= k < |trace|
    requires forall l :: verified <= l <= k ==>
               Sound(trace[l].store.kb) && CurrentInputs(a, trace[l].store.kb) == inputs
    requires Verified(a, trace[verified].store, config, inputs) && NoStragglers(trace[verified], config, inputs)
    ensures Verified(a, trace[k].store, config, inputs) && NoStragglers(trace[k], config, inputs)
    decreases k
  {
    hide Initial, Step, Sound, CurrentInputs, Verified, NoStragglers;
    if verified < k {
      VerifiedRowsStayOk(a, trace, verified, k - 1, config, inputs);
      assert SomeStep(a, trace[k - 1], trace[k]);
      var i: nat :| Step(a, trace[k - 1], trace[k], i);
      StepKeepsVerifiedRows(a, trace[k - 1], trace[k], i, config, inputs);
    }
  }

  /** So without stragglers at the verification the promotion commits on OK rows. */
  lemma ModelOneCommitsOnOkRows(a: InputHashers, trace: seq<System>, k: nat, i: nat) returns (verified: nat)
    requires Run(a, trace) && k < |trace| && i < |trace[k].procs| && trace[k].procs[i].ClassifyVerified?
    ensures var p := trace[k].procs[i];
            && verified < k && Verified(a, trace[verified].store, p.config, p.inputs)
            && (NoStragglers(trace[verified], p.config, p.inputs) ==> Verified(a, trace[k].store, p.config, p.inputs))
  {
    hide Initial, Step, Sound, CurrentInputs, EveryCurrentClassified, NoStragglers;
    verified := ModelOnePromotesTheVerifiedCorpus(a, trace, k, i);
    var p := trace[k].procs[i];
    if NoStragglers(trace[verified], p.config, p.inputs) {
      VerifiedRowsStayOk(a, trace, verified, k, p.config, p.inputs);
    }
  }

  /** Steps of one process alone, on an unchanged corpus. */
  ghost predicate GoesOn(a: InputHashers, trace: seq<System>, s: System) {
    && |trace| > 0 && trace[0] == s
    && (forall k :: 0 < k < |trace| ==> SomeStep(a, trace[k - 1], trace[k]))
    && (forall k :: 0 <= k < |trace| ==> trace[k].store.kb == s.store.kb)
  }

  lemma OneMoreStep(a: InputHashers, trace: seq<System>, s: System, j: nat, st': Store, p': Phase)
    returns (more: seq<System>)
    requires GoesOn(a, trace, s) && Sound(s.store.kb) && j < |s.procs|
    requires var last := trace[|trace| - 1];
             && |last.procs| == |s.procs| && st'.kb == s.store.kb && Holds(p') == {}
             && ClassifierStep(a, last.store, last.procs[j], st', p')
    ensures GoesOn(a, more, s) && |more| == |trace| + 1
    ensures more[|more| - 1] == System(st', trace[|trace| - 1].procs[j := p'])
  {
    hide ClassifierStep, Sound;
    var last := trace[|trace| - 1];
    more := trace + [System(st', last.procs[j := p'])];
    assert Step(a, last, more[|trace|], j);
    assert SomeStep(a, more[|trace| - 1], more[|trace|]);
  }

  /** A failure that is committed late replaces the verified row. */
  lemma FailedPredictionSpoils(a: InputHashers, trace: seq<System>, s: System, j: nat, config: nat,
                               inputs: map<nat, string>)
    returns (more: seq<System>)
    requires Verified(a, s.store, config, inputs) && |trace| > 0 && GoesOn(a, trace, s) && j < |s.procs|
    requires var last := trace[|trace| - 1];
             |last.procs| == |s.procs| && last.procs[j].ClassifyPredicting? && last.procs[j].config == config
             && last.procs[j].pk in last.procs[j].inputs && last.procs[j].pk in inputs
    ensures GoesOn(a, more, s) && |more| == |trace| + 1 && !Verified(a, more[|more| - 1].store, config, inputs)
  {
    hide *;
    var last := trace[|trace| - 1];
    SameKb(a, trace, s);
    VerifiedIsSound(a, s.store, config, inputs);
    var st', p' := FailedPrediction(a, last.store, last.procs[j]);
    more := OneMoreStep(a, trace, s, j, st', p');
    SpoiledRow(a, st', config, inputs, last.procs[j].pk);
  }

  /** The prediction of a backfill may fail at any time. */
  lemma FailedPrediction(a: InputHashers, st: Store, p: Phase) returns (st': Store, p': Phase)
    requires Sound(st.kb) && p.ClassifyPredicting? && p.pk in p.inputs
    ensures ClassifierStep(a, st, p, st', p') && st'.kb == st.kb && Holds(p') == {}
    ensures (p.pk, p.config) in st'.classified && !st'.classified[(p.pk, p.config)].succeeded
  {
    hide Sound;
    st' := st.(classified := st.classified[(p.pk, p.config) := Classified(p.inputs[p.pk], false)]);
    p' := Finished;
    assert PredictionCommits(st, p.config, p.inputs, p.todo, p.pk, false, st', p');
  }

  lemma SpoiledRow(a: InputHashers, st: Store, config: nat, inputs: map<nat, string>, pk: nat)
    requires pk in inputs && (pk, config) in st.classified && !st.classified[(pk, config)].succeeded
    ensures !Verified(a, st, config, inputs)
  {
    hide Sound, Current;
    if Verified(a, st, config, inputs) {
      VerifiedRow(a, st, config, inputs, pk);
    }
  }

  lemma VerifiedRow(a: InputHashers, st: Store, config: nat, inputs: map<nat, string>, pk: nat)
    requires Verified(a, st, config, inputs) && pk in inputs
    ensures (pk, config) in st.classified && st.classified[(pk, config)] == Classified(inputs[pk], true)
  {
    hide Sound, Current;
    SoundResolves(st.kb);
    assert pk in Current(st.kb);
  }

  lemma SameKb(a: InputHashers, trace: seq<System>, s: System)
    requires GoesOn(a, trace, s)
    ensures trace[|trace| - 1].store.kb == s.store.kb
  {
  }

  /** A backfill on outdated inputs does not recognise the verified row and predicts anew. */
  lemma OutdatedLookupSpoils(a: InputHashers, trace: seq<System>, s: System, j: nat, config: nat,
                             inputs: map<nat, string>)
    returns (more: seq<System>)
    requires Verified(a, s.store, config, inputs) && |trace| > 0 && GoesOn(a, trace, s) && j < |s.procs|
    requires var last := trace[|trace| - 1];
             |last.procs| == |s.procs| && last.procs[j].Classifying? && last.procs[j].config == config
             && Outdated(last.procs[j].inputs, last.procs[j].todo, inputs)
             && forall pk :: pk in inputs && (pk, config) in s.store.classified ==>
                  (pk, config) in last.store.classified
                  && last.store.classified[(pk, config)] == s.store.classified[(pk, config)]
    ensures GoesOn(a, more, s) && |more| == |trace| + 2 && !Verified(a, more[|more| - 1].store, config, inputs)
  {
    hide *;
    var last := trace[|trace| - 1];
    SameKb(a, trace, s);
    VerifiedIsSound(a, s.store, config, inputs);
    var p := last.procs[j];
    var pk := OutdatedInput(p.inputs, p.todo, inputs);
    VerifiedRow(a, s.store, config, inputs, pk);
    var p' := MissedLookup(a, last.store, p, pk);
    more := OneMoreStep(a, trace, s, j, last.store, p');
    more := FailedPredictionSpoils(a, more, s, j, config, inputs);
  }

  lemma OutdatedInput(mine: map<nat, string>, todo: set<nat>, inputs: map<nat, string>) returns (pk: nat)
    requires Outdated(mine, todo, inputs)
    ensures pk in todo && pk in mine && pk in inputs && mine[pk] != inputs[pk]
  {
    pk :| pk in todo && pk in mine && pk in inputs && mine[pk] != inputs[pk];
  }

  lemma MissedLookup(a: InputHashers, st: Store, p: Phase, pk: nat) returns (p': Phase)
    requires Sound(st.kb) && p.Classifying? && pk in p.todo && pk in p.inputs
    requires (pk, p.config) in st.classified && st.classified[(pk, p.config)].inputSha != p.inputs[pk]
    ensures p' == ClassifyPredicting(p.config, p.inputs, p.todo, pk)
    ensures ClassifierStep(a, st, p, st, p') && Holds(p') == {}
  {
    hide Sound;
    p' := AfterLookup(st, p.config, p.inputs, p.todo, pk);
  }

  /** ... and where one does, it can still spoil a row, by at most three steps of its own. */
  lemma StragglersCanSpoilRows(a: InputHashers, s: System, j: nat, config: nat, inputs: map<nat, string>)
    returns (trace: seq<System>)
    requires Verified(a, s.store, config, inputs) && j < |s.procs| && Straggles(s.procs[j], config, inputs)
    ensures GoesOn(a, trace, s) && |trace| <= 4
    ensures !Verified(a, trace[|trace| - 1].store, config, inputs)
  {
    hide Verified, Sound, Outdated, ClassifierStep, Step, Holds;
    var p := s.procs[j];
    if p.Classifying? {
      trace := OutdatedLookupSpoils(a, [s], s, j, config, inputs);
    } else if p.pk in inputs {
      trace := FailedPredictionSpoils(a, [s], s, j, config, inputs);
    } else {
      VerifiedIsSound(a, s.store, config, inputs);
      var st', p' := GoodPrediction(a, s.store, p);
      trace := OneMoreStep(a, [s], s, j, st', p');
      StillOutdated(p.inputs, p.todo, p.pk, inputs);
      trace := OutdatedLookupSpoils(a, trace, s, j, config, inputs);
    }
  }

  lemma GoodPrediction(a: InputHashers, st: Store, p: Phase) returns (st': Store, p': Phase)
    requires Sound(st.kb) && p.ClassifyPredicting? && p.pk in p.inputs
    ensures ClassifierStep(a, st, p, st', p') && Holds(p') == {}
    ensures p' == Classifying(p.config, p.inputs, p.todo - {p.pk})
    ensures st' == st.(classified := st.classified[(p.pk, p.config) := Classified(p.inputs[p.pk], true)])
  {
    hide Sound;
    st' := st.(classified := st.classified[(p.pk, p.config) := Classified(p.inputs[p.pk], true)]);
    p' := Classifying(p.config, p.inputs, p.todo - {p.pk});
    assert PredictionCommits(st, p.config, p.inputs, p.todo, p.pk, true, st', p');
  }

  lemma VerifiedIsSound(a: InputHashers, st: Store, config: nat, inputs: map<nat, string>)
    requires Verified(a, st, config, inputs)
    ensures Sound(st.kb)
  {
  }

  lemma StillOutdated(mine: map<nat, string>, todo: set<nat>, pk: nat, inputs: map<nat, string>)
    requires Outdated(mine, todo, inputs) && pk !in inputs
    ensures Outdated(mine, todo - {pk}, inputs)
  {
    var other :| other in todo && other in mine && other in inputs && mine[other] != inputs[other];
    assert other in todo - {pk};
  }

  // ---------------------------------------------------------------- no deadlock

  /** The lock a process asks for next. */
  function Wants(p: Phase): (lock: Option<Lock>) {
    match p
    case ImportStart(_) => Some(ClassificationLock)
    case ImportHasFirstLock(_) => Some(EmbeddingLock)
    case ImportWrote(_, _, outcome) => if outcome.Ingested? then Some(EmbeddingConfigRows) else None
    case PromoteWants(_, _) => Some(EmbeddingLock)
    case PromoteHasLock(_, _) => Some(EmbeddingConfigRows)
    case Classifying(_, _, todo) => if todo == {} then Some(ClassificationLock) else None
    case ClassifyHasLock(c, _) => Some(ClassificationRow(c))
    case _ => None
  }

  /** Classification lock, then embedding lock, then rows. */
  function Rank(lock: Lock): (rank: nat) {
    match lock
    case ClassificationLock => 0
    case EmbeddingLock => 1
    case EmbeddingConfigRows => 2
    case ClassificationRow(_) => 2
  }

  ghost predicate WaitsFor(s: System, i: nat, j: nat) {
    i < |s.procs| && j < |s.procs| && Wants(s.procs[i]).Some? && Wants(s.procs[i]).value in Holds(s.procs[j])
  }

  /** Wants describes the steps: no step takes a lock it does not name, and the named lock is
      taken by every step other than giving up. */
  lemma WantsIsWhatStepsTake(a: InputHashers, st: Store, p: Phase, st': Store, p': Phase)
    requires Sound(st.kb) && LocalStep(a, st, p, st', p') && p' != Finished
    ensures match Wants(p)
            case None => Holds(p') <= Holds(p)
            case Some(lock) => Holds(p') == Holds(p) + {lock}
  {
    hide Sound, Wants, Holds, ImporterStep, EmbedderStep, ClassifierStep;
    if ImporterStep(st, p, st', p') {
      ImporterTakes(st, p, st', p');
    } else if EmbedderStep(a, st, p, st', p') {
      EmbedderTakes(a, st, p, st', p');
    } else {
      ClassifierTakes(a, st, p, st', p');
    }
  }

  lemma ImporterTakes(st: Store, p: Phase, st': Store, p': Phase)
    requires Sound(st.kb) && ImporterStep(st, p, st', p') && p' != Finished
    ensures match Wants(p) case None => Holds(p') <= Holds(p) case Some(lock) => Holds(p') == Holds(p) + {lock}
  {
    hide Sound, Ingest, DemotedV2;
  }

  lemma EmbedderTakes(a: InputHashers, st: Store, p: Phase, st': Store, p': Phase)
    requires Sound(st.kb) && EmbedderStep(a, st, p, st', p') && p' != Finished
    ensures match Wants(p) case None => Holds(p') <= Holds(p) case Some(lock) => Holds(p') == Holds(p) + {lock}
  {
    hide Sound, Matching, CheckConfigs, Promoted, Upserted, CoversExactly, HashesMatch, RowsOf, Current, ExpectedFor,
      PendingFor;
  }

  lemma ClassifierTakes(a: InputHashers, st: Store, p: Phase, st': Store, p': Phase)
    requires Sound(st.kb) && ClassifierStep(a, st, p, st', p') && p' != Finished
    ensures match Wants(p) case None => Holds(p') <= Holds(p) case Some(lock) => Holds(p') == Holds(p) + {lock}
  {
    hide Sound, CurrentInputs, EveryCurrentClassified;
  }

  lemma {:induction false} RanksClimb(s: System, chain: seq<nat>, k: nat)
    requires k < |chain| && forall m :: 0 <= m < |chain| - 1 ==> WaitsFor(s, chain[m], chain[m + 1])
    requires chain[k] < |s.procs| && Wants(s.procs[chain[k]]).Some?
    ensures chain[0] < |s.procs| && Wants(s.procs[chain[0]]).Some?
    ensures Rank(Wants(s.procs[chain[k]]).value) >= Rank(Wants(s.procs[chain[0]]).value) + k
  {
    if k > 0 {
      assert WaitsFor(s, chain[k - 1], chain[k - 1 + 1]);
      RanksClimb(s, chain, k - 1);
    }
  }

  /** No cycle of processes each waiting for a lock that the next one holds. */
  lemma NoWaitCycle(s: System, chain: seq<nat>)
    requires |chain| > 1 && chain[0] == chain[|chain| - 1]
    ensures exists m :: 0 <= m < |chain| - 1 && !WaitsFor(s, chain[m], chain[m + 1])
  {
    if forall m :: 0 <= m < |chain| - 1 ==> WaitsFor(s, chain[m], chain[m + 1]) {
      assert WaitsFor(s, chain[0], chain[0 + 1]);
      RanksClimb(s, chain, |chain| - 1);
      assert false;
    }
  }

  /** Following the waits from any process ends, within two hops, at one that is not blocked:
      as long as some process has work left, some process can go on. */
  lemma {:induction false} SomeoneCanGoOn(s: System, i: nat) returns (j: nat)
    requires i < |s.procs| && s.procs[i] != Finished
    ensures j < |s.procs| && s.procs[j] != Finished
    ensures forall other: nat :: !WaitsFor(s, j, other)
    decreases if Wants(s.procs[i]).Some? then 3 - Rank(Wants(s.procs[i]).value) else 0
  {
    if other: nat :| WaitsFor(s, i, other) {
      j := SomeoneCanGoOn(s, other);
    } else {
      j := i;
    }
  }
}

/** The version ledger of the Existing KB: which source version and which profile
    version of every notice is current (backend/scripts/ingest_existing_profile.py).

    A table is a sequence of rows and a primary key is an index into it: the importer
    only inserts and patches these tables, it never deletes from them. */
module KbLedger {
  import opened Wrappers

  datatype Notice = Notice(noticeId: string, metadata: string)
  datatype SourceProfile = SourceProfile(notice: nat, sourceProfileId: string)
  datatype SourceVersion = SourceVersion(sourceProfile: nat, sourceSha: string, isCurrent: bool)
  datatype ProfileVersion = ProfileVersion(sourceVersion: nat, profileSha: string, isCurrent: bool)
  datatype Artifact = Artifact(objectKey: string, sourceVersion: nat)

  datatype Kb = Kb(
    notices: seq<Notice>,
    sourceProfiles: seq<SourceProfile>,
    sourceVersions: seq<SourceVersion>,
    profileVersions: seq<ProfileVersion>,
    artifacts: seq<Artifact>,
    lineage: set<(nat, nat)>)

  /** One validated ingestion record. The artifact keys are content addressed and listed
      in lineage order: source, Common IR, candidate pack, structured profile, record. */
  datatype Record = Record(
    noticeId: string,
    metadata: string,
    sourceProfileId: string,
    sourceSha: string,
    profileSha: string,
    artifactKeys: seq<string>)

  datatype Outcome = AlreadyIngested(profileVersion: nat) | Ingested(profileVersion: nat)

  // ---------------------------------------------------------------- SELECT / UPDATE

  /** SELECT: the primary keys of the rows that match, in table order. */
  function Where<T>(table: seq<T>, matches: T -> bool): (pks: seq<nat>)
    ensures forall pk: nat :: pk in pks <==> pk < |table| && matches(table[pk])
    ensures forall i :: 0 <= i < |pks| ==> pks[i] < |table| && matches(table[pks[i]])
    ensures forall i, j :: 0 <= i < j < |pks| ==> pks[i] < pks[j]
  {
    if table == [] then []
    else
      var last := |table| - 1;
      var rest := Where(table[..last], matches);
      if matches(table[last]) then rest + [last] else rest
  }

  /** KnowledgeBase.one: at most one row may match, otherwise it raises. */
  function One<T>(table: seq<T>, matches: T -> bool): (row: Result<Option<nat>>)
    ensures row.Err? <==> exists i, j :: 0 <= i < j < |table| && matches(table[i]) && matches(table[j])
    ensures row.Ok? && row.value.None? <==> forall pk :: 0 <= pk < |table| ==> !matches(table[pk])
    ensures row.Ok? && row.value.Some? ==>
              row.value.value < |table| && matches(table[row.value.value])
  {
    var pks := Where(table, matches);
    assert forall pk: nat :: pk < |table| && matches(table[pk]) ==> pk in pks;
    assert |pks| > 1 ==> pks[0] < pks[1];
    if |pks| > 1 then Err("expected one row")
    else if |pks| == 1 then Ok(Some(pks[0]))
    else Ok(None)
  }

  /** A natural key that no two rows share is never ambiguous. */
  lemma OneFinds<T>(table: seq<T>, matches: T -> bool, pk: nat)
    requires pk < |table| && matches(table[pk])
    requires forall other :: 0 <= other < |table| && matches(table[other]) ==> other == pk
    ensures One(table, matches) == Ok(Some(pk))
  {
    assert pk in Where(table, matches);
  }

  /** UPDATE source_version SET is_current = FALSE for the current rows of one profile. */
  function RetireSources(table: seq<SourceVersion>, sourceProfile: nat): (t: seq<SourceVersion>) {
    seq(|table|, i requires 0 <= i < |table| =>
      if table[i].sourceProfile == sourceProfile then table[i].(isCurrent := false) else table[i])
  }

  function RetireProfiles(table: seq<ProfileVersion>, sourceVersion: nat): (t: seq<ProfileVersion>) {
    seq(|table|, i requires 0 <= i < |table| =>
      if table[i].sourceVersion == sourceVersion then table[i].(isCurrent := false) else table[i])
  }

  // ---------------------------------------------------------------- ingest_record

  function EnsureNotice(kb: Kb, noticeId: string, metadata: string): (r: Result<(Kb, nat)>) {
    match One(kb.notices, (row: Notice) => row.noticeId == noticeId)
    case Err(m) => Err(m)
    case Ok(Some(pk)) => Ok((kb.(notices := kb.notices[pk := kb.notices[pk].(metadata := metadata)]), pk))
    case Ok(None) => Ok((kb.(notices := kb.notices + [Notice(noticeId, metadata)]), |kb.notices|))
  }

  function EnsureSourceProfile(kb: Kb, notice: nat, sourceProfileId: string): (r: Result<(Kb, nat)>) {
    match One(kb.sourceProfiles, (row: SourceProfile) => row.sourceProfileId == sourceProfileId)
    case Err(m) => Err(m)
    case Ok(Some(pk)) =>
      if kb.sourceProfiles[pk].notice == notice then Ok((kb, pk))
      else Result<(Kb, nat)>.Err("source_profile_id belongs to another notice")
    case Ok(None) =>
      Ok((kb.(sourceProfiles := kb.sourceProfiles + [SourceProfile(notice, sourceProfileId)]), |kb.sourceProfiles|))
  }

  function EnsureSourceVersion(kb: Kb, sourceProfile: nat, sourceSha: string): (r: Result<(Kb, nat)>) {
    match One(kb.sourceVersions, (row: SourceVersion) => row.sourceProfile == sourceProfile
      && row.sourceSha == sourceSha)
    case Err(m) => Err(m)
    case Ok(Some(pk)) => Ok((kb, pk))
    case Ok(None) =>
      var retired := RetireSources(kb.sourceVersions, sourceProfile);
      Ok((kb.(sourceVersions := retired + [SourceVersion(sourceProfile, sourceSha, true)]), |kb.sourceVersions|))
  }

  /** artifact(): the row with this object key, inserted when it is absent. */
  function EnsureArtifact(kb: Kb, sourceVersion: nat, key: string): (r: Result<(Kb, nat)>) {
    match One(kb.artifacts, (row: Artifact) => row.objectKey == key)
    case Err(m) => Err(m)
    case Ok(Some(pk)) => Ok((kb, pk))
    case Ok(None) => Ok((kb.(artifacts := kb.artifacts + [Artifact(key, sourceVersion)]), |kb.artifacts|))
  }

  function EnsureArtifacts(kb: Kb, sourceVersion: nat, keys: seq<string>): (r: Result<(Kb, seq<nat>)>)
    ensures r.Ok? ==> |r.value.1| == |keys|
  {
    if keys == [] then Ok((kb, []))
    else
      var last := |keys| - 1;
      match EnsureArtifacts(kb, sourceVersion, keys[..last])
      case Err(m) => Err(m)
      case Ok((kb1, pks)) =>
        match EnsureArtifact(kb1, sourceVersion, keys[last])
        case Err(m) => Err(m)
        case Ok((kb2, pk)) => Ok((kb2, pks + [pk]))
  }

  /** INSERT ... ON CONFLICT DO NOTHING for every consecutive parent and child. */
  function Chain(pks: seq<nat>): (edges: set<(nat, nat)>) {
    if |pks| < 2 then {} else Chain(pks[..|pks| - 1]) + {(pks[|pks| - 2], pks[|pks| - 1])}
  }

  /** The profile_version step: reuse the version with these bytes or make it the current one. */
  function EnsureProfileVersion(kb: Kb, sourceVersion: nat, profileSha: string): (r: Result<(Kb, Outcome)>) {
    match One(kb.profileVersions, (row: ProfileVersion) => row.sourceVersion == sourceVersion
      && row.profileSha == profileSha)
    case Err(m) => Err(m)
    case Ok(Some(pk)) => Ok((kb, AlreadyIngested(pk)))
    case Ok(None) =>
      var retired := RetireProfiles(kb.profileVersions, sourceVersion);
      Ok((kb.(profileVersions := retired + [ProfileVersion(sourceVersion, profileSha, true)]),
          Ingested(|kb.profileVersions|)))
  }

  /** The notice, source profile and source version rows of a record, inserted when absent. */
  function ResolveSource(kb: Kb, record: Record): (r: Result<(Kb, nat)>) {
    match EnsureNotice(kb, record.noticeId, record.metadata)
    case Err(m) => Err(m)
    case Ok((kb1, notice)) =>
      match EnsureSourceProfile(kb1, notice, record.sourceProfileId)
      case Err(m) => Err(m)
      case Ok((kb2, sourceProfile)) => EnsureSourceVersion(kb2, sourceProfile, record.sourceSha)
  }

  /** ingest_record as a function of the tables; Err stands for the exception that makes
      run_transaction roll every row back. */
  function Ingest(kb: Kb, record: Record): (r: Result<(Kb, Outcome)>) {
    match ResolveSource(kb, record)
    case Err(m) => Err(m)
    case Ok((kb3, sourceVersion)) =>
      match EnsureArtifacts(kb3, sourceVersion, record.artifactKeys)
      case Err(m) => Err(m)
      case Ok((kb4, pks)) =>
        EnsureProfileVersion(kb4.(lineage := kb4.lineage + Chain(pks)), sourceVersion, record.profileSha)
  }

  // ---------------------------------------------------------------- what the ledger keeps

  ghost predicate KeysResolve(kb: Kb) {
    && (forall i :: 0 <= i < |kb.sourceProfiles| ==> kb.sourceProfiles[i].notice < |kb.notices|)
    && (forall i :: 0 <= i < |kb.sourceVersions| ==> kb.sourceVersions[i].sourceProfile < |kb.sourceProfiles|)
    && (forall i :: 0 <= i < |kb.profileVersions| ==> kb.profileVersions[i].sourceVersion < |kb.sourceVersions|)
  }

  ghost predicate NaturalKeysUnique(kb: Kb) {
    && (forall i, j :: 0 <= i < j < |kb.notices| ==> kb.notices[i].noticeId != kb.notices[j].noticeId)
    && (forall i, j :: 0 <= i < j < |kb.sourceProfiles| ==>
          kb.sourceProfiles[i].sourceProfileId != kb.sourceProfiles[j].sourceProfileId)
    && (forall i, j :: 0 <= i < j < |kb.sourceVersions| ==>
          !(kb.sourceVersions[i].sourceProfile == kb.sourceVersions[j].sourceProfile
            && kb.sourceVersions[i].sourceSha == kb.sourceVersions[j].sourceSha))
    && (forall i, j :: 0 <= i < j < |kb.profileVersions| ==>
          !(kb.profileVersions[i].sourceVersion == kb.profileVersions[j].sourceVersion
            && kb.profileVersions[i].profileSha == kb.profileVersions[j].profileSha))
    && (forall i, j :: 0 <= i < j < |kb.artifacts| ==> kb.artifacts[i].objectKey != kb.artifacts[j].objectKey)
  }

  /** At most one current source version per source profile and at most one current
      profile version per source version. */
  ghost predicate OneCurrent(kb: Kb) {
    && (forall i, j :: 0 <= i < j < |kb.sourceVersions| ==>
          !(kb.sourceVersions[i].isCurrent && kb.sourceVersions[j].isCurrent
            && kb.sourceVersions[i].sourceProfile == kb.sourceVersions[j].sourceProfile))
    && (forall i, j :: 0 <= i < j < |kb.profileVersions| ==>
          !(kb.profileVersions[i].isCurrent && kb.profileVersions[j].isCurrent
            && kb.profileVersions[i].sourceVersion == kb.profileVersions[j].sourceVersion))
  }

  ghost predicate Sound(kb: Kb) {
    KeysResolve(kb) && NaturalKeysUnique(kb) && OneCurrent(kb)
  }

  /** Online retrieval sees exactly these profile versions. */
  function Current(kb: Kb): (pks: set<nat>)
    requires KeysResolve(kb)
  {
    set pk | 0 <= pk < |kb.profileVersions|
             && kb.profileVersions[pk].isCurrent
             && kb.sourceVersions[kb.profileVersions[pk].sourceVersion].isCurrent
  }

  ghost predicate SameSources(kb: Kb, kb': Kb) {
    && |kb.sourceVersions| <= |kb'.sourceVersions|
    && (forall i :: 0 <= i < |kb.sourceVersions| ==>
          kb'.sourceVersions[i].(isCurrent := false) == kb.sourceVersions[i].(isCurrent := false))
  }

  ghost predicate SameProfiles(kb: Kb, kb': Kb) {
    && |kb.profileVersions| <= |kb'.profileVersions|
    && (forall i :: 0 <= i < |kb.profileVersions| ==>
          kb'.profileVersions[i].(isCurrent := false) == kb.profileVersions[i].(isCurrent := false))
  }

  /** Rows keep their identity: only notice metadata and the current flags are ever patched. */
  ghost predicate Grows(kb: Kb, kb': Kb) {
    && |kb.notices| <= |kb'.notices|
    && (forall i :: 0 <= i < |kb.notices| ==> kb'.notices[i].noticeId == kb.notices[i].noticeId)
    && kb.sourceProfiles <= kb'.sourceProfiles
    && SameSources(kb, kb')
    && SameProfiles(kb, kb')
    && kb.artifacts <= kb'.artifacts
    && kb.lineage <= kb'.lineage
  }

  lemma NoticeStep(kb: Kb, record: Record)
    requires Sound(kb)
    ensures EnsureNotice(kb, record.noticeId, record.metadata).Ok?
    ensures var (kb', pk) := EnsureNotice(kb, record.noticeId, record.metadata).value;
            && Sound(kb') && kb' == kb.(notices := kb'.notices)
            && pk < |kb'.notices| && kb'.notices[pk] == Notice(record.noticeId, record.metadata)
            && (pk < |kb.notices| ==> kb.notices[pk].noticeId == record.noticeId)
            && (forall i :: 0 <= i < |kb.notices| && i != pk ==> kb'.notices[i] == kb.notices[i])
            && |kb'.notices| == (if pk < |kb.notices| then |kb.notices| else pk + 1)
  {
  }

  lemma SourceProfileStep(kb: Kb, notice: nat, id: string)
    requires Sound(kb) && notice < |kb.notices|
    ensures var r := EnsureSourceProfile(kb, notice, id);
            && (r.Err? <==> exists i :: 0 <= i < |kb.sourceProfiles|
                              && kb.sourceProfiles[i].sourceProfileId == id && kb.sourceProfiles[i].notice != notice)
            && (r.Ok? ==> var (kb', pk) := r.value;
                  && Sound(kb') && kb' == kb.(sourceProfiles := kb'.sourceProfiles)
                  && pk < |kb'.sourceProfiles| && kb'.sourceProfiles[pk] == SourceProfile(notice, id)
                     && kb.sourceProfiles <= kb'.sourceProfiles
                  && |kb'.sourceProfiles| == (if pk < |kb.sourceProfiles| then |kb.sourceProfiles| else pk + 1))
  {
    var matches := (row: SourceProfile) => row.sourceProfileId == id;
    if pk :| 0 <= pk < |kb.sourceProfiles| && kb.sourceProfiles[pk].sourceProfileId == id {
      OneFinds(kb.sourceProfiles, matches, pk);
    }
  }

  /** Retiring the others and inserting one current row keeps the source table in order. */
  lemma NewSourceVersion(kb: Kb, sourceProfile: nat, sha: string)
    requires Sound(kb) && sourceProfile < |kb.sourceProfiles|
    requires forall i :: 0 <= i < |kb.sourceVersions| ==>
               !(kb.sourceVersions[i].sourceProfile == sourceProfile && kb.sourceVersions[i].sourceSha == sha)
    ensures Sound(kb.(sourceVersions := RetireSources(kb.sourceVersions, sourceProfile)
                                        + [SourceVersion(sourceProfile, sha, true)]))
  {
    var t, t' := kb.sourceVersions, RetireSources(kb.sourceVersions, sourceProfile)
         + [SourceVersion(sourceProfile, sha, true)];
    forall i, j | 0 <= i < j < |t'|
      ensures !(t'[i].sourceProfile == t'[j].sourceProfile
                && (t'[i].sourceSha == t'[j].sourceSha || (t'[i].isCurrent && t'[j].isCurrent)))
    {
      if j < |t| {
        assert !(t[i].sourceProfile == t[j].sourceProfile && t[i].sourceSha == t[j].sourceSha);
        assert !(t[i].sourceProfile == t[j].sourceProfile && t[i].isCurrent && t[j].isCurrent);
      }
    }
  }

  lemma SourceVersionStep(kb: Kb, sourceProfile: nat, sha: string)
    requires Sound(kb) && sourceProfile < |kb.sourceProfiles|
    ensures EnsureSourceVersion(kb, sourceProfile, sha).Ok?
    ensures var (kb', pk) := EnsureSourceVersion(kb, sourceProfile, sha).value;
            && Sound(kb') && kb' == kb.(sourceVersions := kb'.sourceVersions)
            && pk < |kb'.sourceVersions|
            && kb'.sourceVersions[pk].sourceProfile == sourceProfile && kb'.sourceVersions[pk].sourceSha == sha
            && (pk < |kb.sourceVersions| ==> kb' == kb)
            && (pk >= |kb.sourceVersions| ==>
                  pk == |kb.sourceVersions| && |kb'.sourceVersions| == pk + 1 && kb'.sourceVersions[pk].isCurrent)
            && SameSources(kb, kb')
            && (forall i :: 0 <= i < |kb.sourceVersions| && kb.sourceVersions[i].sourceProfile != sourceProfile
                  ==> kb'.sourceVersions[i] == kb.sourceVersions[i])
  {
    if One(kb.sourceVersions, (row: SourceVersion) => row.sourceProfile == sourceProfile && row.sourceSha == sha)
       == Ok(None) {
      NewSourceVersion(kb, sourceProfile, sha);
    }
  }

  lemma ArtifactStep(kb: Kb, sourceVersion: nat, key: string)
    requires Sound(kb)
    ensures EnsureArtifact(kb, sourceVersion, key).Ok?
    ensures var (kb', pk) := EnsureArtifact(kb, sourceVersion, key).value;
            && Sound(kb') && kb' == kb.(artifacts := kb'.artifacts) && kb.artifacts <= kb'.artifacts
            && pk < |kb'.artifacts| && kb'.artifacts[pk].objectKey == key
  {
  }

  lemma {:induction false} ArtifactsStep(kb: Kb, sourceVersion: nat, keys: seq<string>)
    requires Sound(kb)
    ensures EnsureArtifacts(kb, sourceVersion, keys).Ok?
    ensures var (kb', pks) := EnsureArtifacts(kb, sourceVersion, keys).value;
            && Sound(kb') && kb' == kb.(artifacts := kb'.artifacts) && kb.artifacts <= kb'.artifacts
            && |pks| == |keys|
            && (forall i :: 0 <= i < |keys| ==> pks[i] < |kb'.artifacts| && kb'.artifacts[pks[i]].objectKey == keys[i])
  {
    hide EnsureArtifact, Sound;
    if keys != [] {
      var last := |keys| - 1;
      ArtifactsStep(kb, sourceVersion, keys[..last]);
      ArtifactStep(EnsureArtifacts(kb, sourceVersion, keys[..last]).value.0, sourceVersion, keys[last]);
    }
  }

  lemma NewProfileVersion(kb: Kb, sourceVersion: nat, sha: string)
    requires Sound(kb) && sourceVersion < |kb.sourceVersions|
    requires forall i :: 0 <= i < |kb.profileVersions| ==>
               !(kb.profileVersions[i].sourceVersion == sourceVersion && kb.profileVersions[i].profileSha == sha)
    ensures Sound(kb.(profileVersions := RetireProfiles(kb.profileVersions, sourceVersion)
                                         + [ProfileVersion(sourceVersion, sha, true)]))
  {
    var t, t' := kb.profileVersions, RetireProfiles(kb.profileVersions, sourceVersion)
         + [ProfileVersion(sourceVersion, sha, true)];
    forall i, j | 0 <= i < j < |t'|
      ensures !(t'[i].sourceVersion == t'[j].sourceVersion
                && (t'[i].profileSha == t'[j].profileSha || (t'[i].isCurrent && t'[j].isCurrent)))
    {
      if j < |t| {
        assert !(t[i].sourceVersion == t[j].sourceVersion && t[i].profileSha == t[j].profileSha);
        assert !(t[i].sourceVersion == t[j].sourceVersion && t[i].isCurrent && t[j].isCurrent);
      }
    }
  }

  lemma ProfileVersionStep(kb: Kb, sourceVersion: nat, sha: string)
    requires Sound(kb) && sourceVersion < |kb.sourceVersions|
    ensures EnsureProfileVersion(kb, sourceVersion, sha).Ok?
    ensures var (kb', outcome) := EnsureProfileVersion(kb, sourceVersion, sha).value;
            var pk := outcome.profileVersion;
            && Sound(kb') && kb' == kb.(profileVersions := kb'.profileVersions)
            && pk < |kb'.profileVersions|
            && kb'.profileVersions[pk].sourceVersion == sourceVersion && kb'.profileVersions[pk].profileSha == sha
            && (outcome.AlreadyIngested? ==> pk < |kb.profileVersions| && kb' == kb)
            && (outcome.Ingested? ==>
                  pk == |kb.profileVersions| && |kb'.profileVersions| == pk + 1 && kb'.profileVersions[pk].isCurrent)
            && SameProfiles(kb, kb')
            && (forall i :: 0 <= i < |kb.profileVersions| && kb.profileVersions[i].sourceVersion != sourceVersion
                  ==> kb'.profileVersions[i] == kb.profileVersions[i])
  {
    if One(kb.profileVersions, (row: ProfileVersion) => row.sourceVersion == sourceVersion && row.profileSha == sha)
       == Ok(None) {
      NewProfileVersion(kb, sourceVersion, sha);
    }
  }

  // ---------------------------------------------------------------- ingest_record as a whole

  lemma SoundResolves(kb: Kb)
    requires Sound(kb)
    ensures KeysResolve(kb)
  {
  }

  lemma LineageStep(kb: Kb, edges: set<(nat, nat)>)
    requires Sound(kb)
    ensures Sound(kb.(lineage := kb.lineage + edges))
  {
  }

  /** The row chain behind a profile version carries exactly the record's identity. */
  ghost predicate Identifies(kb: Kb, pk: nat, record: Record)
    requires KeysResolve(kb)
  {
    && pk < |kb.profileVersions|
    && kb.profileVersions[pk].profileSha == record.profileSha
    && var source := kb.sourceVersions[kb.profileVersions[pk].sourceVersion];
    && source.sourceSha == record.sourceSha
    && var profile := kb.sourceProfiles[source.sourceProfile];
    && profile.sourceProfileId == record.sourceProfileId
    && kb.notices[profile.notice] == Notice(record.noticeId, record.metadata)
  }

  ghost predicate ArchivedAs(kb: Kb, keys: seq<string>, pks: seq<nat>) {
    && |pks| == |keys|
    && (forall i :: 0 <= i < |keys| ==> pks[i] < |kb.artifacts| && kb.artifacts[pks[i]].objectKey == keys[i])
    && Chain(pks) <= kb.lineage
  }

  /** Every artifact of the record has a row and each is recorded as input to the next. */
  ghost predicate Archived(kb: Kb, record: Record) {
    exists pks :: ArchivedAs(kb, record.artifactKeys, pks)
  }

  /** The one way an ingest raises in a sound ledger. */
  ghost predicate OwnedByAnotherNotice(kb: Kb, record: Record)
    requires KeysResolve(kb)
  {
    exists i :: 0 <= i < |kb.sourceProfiles|
      && kb.sourceProfiles[i].sourceProfileId == record.sourceProfileId
      && kb.notices[kb.sourceProfiles[i].notice].noticeId != record.noticeId
  }

  /** A new version changes current flags within its own source profile and source version
      only; a version that was already there changes none, and adds no row to either table. */
  ghost predicate OnlyTouches(kb: Kb, kb': Kb, outcome: Outcome)
    requires KeysResolve(kb') && Grows(kb, kb') && outcome.profileVersion < |kb'.profileVersions|
  {
    var mine := kb'.profileVersions[outcome.profileVersion].sourceVersion;
    && (mine < |kb.sourceVersions| ==> kb'.sourceVersions == kb.sourceVersions)
    && (mine >= |kb.sourceVersions| ==>
          mine == |kb.sourceVersions| && kb'.sourceVersions[mine].isCurrent && |kb'.sourceVersions| == mine + 1)
    && (outcome.AlreadyIngested? ==>
          kb'.profileVersions == kb.profileVersions && kb'.sourceVersions == kb.sourceVersions)
    && (outcome.Ingested? ==> |kb'.profileVersions| == outcome.profileVersion + 1)
    && (forall i :: 0 <= i < |kb.sourceVersions|
          && kb.sourceVersions[i].sourceProfile != kb'.sourceVersions[mine].sourceProfile
          ==> kb'.sourceVersions[i] == kb.sourceVersions[i])
    && (forall i :: 0 <= i < |kb.profileVersions| && kb.profileVersions[i].sourceVersion != mine
          ==> kb'.profileVersions[i] == kb.profileVersions[i])
  }

  /** Notice ids are unique, so "another notice" can be read off the notice id. */
  lemma OwnerByName(kb: Kb, kb1: Kb, notice: nat, record: Record)
    requires Sound(kb) && Sound(kb1) && kb1 == kb.(notices := kb1.notices)
    requires |kb.notices| <= |kb1.notices| && notice < |kb1.notices| && kb1.notices[notice].noticeId == record.noticeId
    requires forall i :: 0 <= i < |kb.notices| ==> kb1.notices[i].noticeId == kb.notices[i].noticeId
    ensures OwnedByAnotherNotice(kb, record) <==>
              exists i :: 0 <= i < |kb1.sourceProfiles|
                && kb1.sourceProfiles[i].sourceProfileId == record.sourceProfileId
                   && kb1.sourceProfiles[i].notice != notice
  {
    forall i | 0 <= i < |kb.notices| ensures kb.notices[i].noticeId != record.noticeId <==> i != notice {}
  }

  lemma IngestKeepsLedger(kb: Kb, record: Record)
    requires Sound(kb)
    ensures Ingest(kb, record).Err? <==> OwnedByAnotherNotice(kb, record)
    ensures Ingest(kb, record).Ok? ==>
              var (kb', outcome) := Ingest(kb, record).value;
              && Sound(kb') && Grows(kb, kb')
              && Identifies(kb', outcome.profileVersion, record)
              && (outcome.AlreadyIngested? ==> outcome.profileVersion < |kb.profileVersions|)
              && (outcome.Ingested? ==>
                    outcome.profileVersion == |kb.profileVersions|
                      && kb'.profileVersions[outcome.profileVersion].isCurrent)
              && OnlyTouches(kb, kb', outcome) && Archived(kb', record)
  {
    hide EnsureNotice, EnsureSourceProfile, EnsureSourceVersion, EnsureArtifacts, EnsureProfileVersion, Sound;
    SoundResolves(kb);
    NoticeStep(kb, record);
    var (kb1, notice) := EnsureNotice(kb, record.noticeId, record.metadata).value;
    SourceProfileStep(kb1, notice, record.sourceProfileId);
    OwnerByName(kb, kb1, notice, record);
    if EnsureSourceProfile(kb1, notice, record.sourceProfileId).Ok? {
      var (kb2, sourceProfile) := EnsureSourceProfile(kb1, notice, record.sourceProfileId).value;
      SourceVersionStep(kb2, sourceProfile, record.sourceSha);
      var (kb3, sourceVersion) := EnsureSourceVersion(kb2, sourceProfile, record.sourceSha).value;
      ArtifactsStep(kb3, sourceVersion, record.artifactKeys);
      var (kb4, pks) := EnsureArtifacts(kb3, sourceVersion, record.artifactKeys).value;
      var kb5 := kb4.(lineage := kb4.lineage + Chain(pks));
      LineageStep(kb4, Chain(pks));
      ProfileVersionStep(kb5, sourceVersion, record.profileSha);
      var (kb', outcome) := EnsureProfileVersion(kb5, sourceVersion, record.profileSha).value;
      assert kb'.profileVersions[outcome.profileVersion].sourceVersion == sourceVersion;
      assert outcome.AlreadyIngested? ==> kb'.sourceVersions == kb.sourceVersions;
      assert ArchivedAs(kb', record.artifactKeys, pks);
    }
  }

  lemma {:induction false} ArtifactRowsAre(kb: Kb, sourceVersion: nat, keys: seq<string>)
    requires Sound(kb)
    ensures EnsureArtifacts(kb, sourceVersion, keys).Ok?
    ensures var (kb', pks) := EnsureArtifacts(kb, sourceVersion, keys).value;
            && kb.artifacts <= kb'.artifacts && kb' == kb.(artifacts := kb'.artifacts)
            && forall a: nat :: |kb.artifacts| <= a < |kb'.artifacts| ==>
                 a in pks && kb'.artifacts[a].sourceVersion == sourceVersion
  {
    ArtifactsStep(kb, sourceVersion, keys);
    hide Sound, One;
    if keys != [] {
      var last := |keys| - 1;
      ArtifactRowsAre(kb, sourceVersion, keys[..last]);
      ArtifactsStep(kb, sourceVersion, keys[..last]);
    }
  }

  lemma {:induction false} ChainExactly(pks: seq<nat>, a: nat, b: nat)
    ensures (a, b) in Chain(pks) <==> exists i :: 0 <= i < |pks| - 1 && pks[i] == a && pks[i + 1] == b
  {
    if |pks| >= 2 {
      var init := pks[..|pks| - 1];
      ChainExactly(init, a, b);
      if i :| 0 <= i < |init| - 1 && init[i] == a && init[i + 1] == b {
        assert pks[i] == a && pks[i + 1] == b;
      }
      if i :| 0 <= i < |pks| - 1 && pks[i] == a && pks[i + 1] == b {
        assert i < |pks| - 2 ==> init[i] == a && init[i + 1] == b;
      }
      if (a, b) == (pks[|pks| - 2], pks[|pks| - 1]) {
        assert pks[|pks| - 2] == a && pks[|pks| - 2 + 1] == b;
      }
    }
  }

  /** What an ingest archives: a row for each object, the new ones under the source version of the
      record's profile, and as lineage exactly the consecutive pairs besides what was there. */
  ghost predicate Archives(kb: Kb, kb': Kb, source: nat, keys: seq<string>, pks: seq<nat>) {
    && |pks| == |keys| && kb.artifacts <= kb'.artifacts
    && (forall i :: 0 <= i < |keys| ==> pks[i] < |kb'.artifacts| && kb'.artifacts[pks[i]].objectKey == keys[i])
    && (forall a: nat :: |kb.artifacts| <= a < |kb'.artifacts| ==> a in pks && kb'.artifacts[a].sourceVersion == source)
    && (forall a: nat, b: nat :: (a, b) in kb'.lineage <==>
          (a, b) in kb.lineage || exists i :: 0 <= i < |pks| - 1 && pks[i] == a && pks[i + 1] == b)
  }

  lemma ArtifactsExactly(kb: Kb, record: Record) returns (pks: seq<nat>)
    requires Sound(kb) && Ingest(kb, record).Ok?
    ensures var (kb', outcome) := Ingest(kb, record).value;
            outcome.profileVersion < |kb'.profileVersions|
            && Archives(kb, kb', kb'.profileVersions[outcome.profileVersion].sourceVersion, record.artifactKeys, pks)
  {
    hide EnsureNotice, EnsureSourceProfile, EnsureSourceVersion, EnsureArtifacts, EnsureProfileVersion, Sound, Chain;
    SoundResolves(kb);
    NoticeStep(kb, record);
    var (kb1, notice) := EnsureNotice(kb, record.noticeId, record.metadata).value;
    SourceProfileStep(kb1, notice, record.sourceProfileId);
    var (kb2, sourceProfile) := EnsureSourceProfile(kb1, notice, record.sourceProfileId).value;
    SourceVersionStep(kb2, sourceProfile, record.sourceSha);
    var (kb3, sourceVersion) := EnsureSourceVersion(kb2, sourceProfile, record.sourceSha).value;
    ArtifactsStep(kb3, sourceVersion, record.artifactKeys);
    ArtifactRowsAre(kb3, sourceVersion, record.artifactKeys);
    var kb4: Kb;
    kb4, pks := EnsureArtifacts(kb3, sourceVersion, record.artifactKeys).value.0,
      EnsureArtifacts(kb3, sourceVersion, record.artifactKeys).value.1;
    LineageStep(kb4, Chain(pks));
    ProfileVersionStep(kb4.(lineage := kb4.lineage + Chain(pks)), sourceVersion, record.profileSha);
    forall a: nat, b: nat ensures (a, b) in Chain(pks)
       <==> exists i :: 0 <= i < |pks| - 1 && pks[i] == a && pks[i + 1] == b {
      ChainExactly(pks, a, b);
    }
  }

  /** The importer skips the v2 demotion for an already ingested record because the set of
      profile versions that retrieval sees is then unchanged. */
  lemma AlreadyIngestedKeepsCurrentSet(kb: Kb, record: Record)
    requires Sound(kb) && Ingest(kb, record).Ok? && Ingest(kb, record).value.1.AlreadyIngested?
    ensures KeysResolve(Ingest(kb, record).value.0)
    ensures Current(Ingest(kb, record).value.0) == Current(kb)
  {
    IngestKeepsLedger(kb, record);
  }

  /** One source profile has at most one profile version online. */
  lemma OneOnlineVersionPerSourceProfile(kb: Kb, p: nat, q: nat)
    requires Sound(kb) && p in Current(kb) && q in Current(kb)
    requires kb.sourceVersions[kb.profileVersions[p].sourceVersion].sourceProfile
          == kb.sourceVersions[kb.profileVersions[q].sourceVersion].sourceProfile
    ensures p == q
  {
  }

  /** A source version of the record's own source profile with the record's source bytes. */
  predicate HasSource(kb: Kb, record: Record, source: nat)
    requires KeysResolve(kb)
  {
    && source < |kb.sourceVersions| && kb.sourceVersions[source].sourceSha == record.sourceSha
    && kb.sourceProfiles[kb.sourceVersions[source].sourceProfile].sourceProfileId == record.sourceProfileId
  }

  /** The record brings source bytes that a later version has replaced. */
  ghost predicate SupersededSource(kb: Kb, record: Record)
    requires KeysResolve(kb)
  {
    exists source: nat :: HasSource(kb, record, source) && !kb.sourceVersions[source].isCurrent
  }

  /** The profile bytes are there already, under the record's source bytes. */
  ghost predicate KnownProfile(kb: Kb, record: Record)
    requires KeysResolve(kb)
  {
    exists pk :: 0 <= pk < |kb.profileVersions| && kb.profileVersions[pk].profileSha == record.profileSha
                 && HasSource(kb, record, kb.profileVersions[pk].sourceVersion)
  }

  /** The outcome can be told before the call: `already_ingested` exactly for a known profile. */
  lemma AlreadyIngestedExactly(kb: Kb, record: Record)
    requires Sound(kb) && Ingest(kb, record).Ok?
    ensures Ingest(kb, record).value.1.AlreadyIngested? <==> KnownProfile(kb, record)
  {
    hide Ingest;
    IngestKeepsLedger(kb, record);
    var (kb', outcome) := Ingest(kb, record).value;
    var pk := outcome.profileVersion;
    var source := kb'.profileVersions[pk].sourceVersion;
    if outcome.AlreadyIngested? {
      assert HasSource(kb, record, source);
    } else if known :| 0 <= known < |kb.profileVersions| && kb.profileVersions[known].profileSha == record.profileSha
                       && HasSource(kb, record, kb.profileVersions[known].sourceVersion) {
      SourceStays(kb, kb', record, kb.profileVersions[known].sourceVersion);
      OneSource(kb', record, kb.profileVersions[known].sourceVersion, source);
      assert false;
    }
  }

  lemma SourceStays(kb: Kb, kb': Kb, record: Record, source: nat)
    requires KeysResolve(kb) && KeysResolve(kb') && Grows(kb, kb') && HasSource(kb, record, source)
    ensures HasSource(kb', record, source)
  {
    assert kb'.sourceVersions[source].(isCurrent := false) == kb.sourceVersions[source].(isCurrent := false);
  }

  /** Source profile id and source bytes name one source version. */
  lemma OneSource(kb: Kb, record: Record, a: nat, b: nat)
    requires Sound(kb) && HasSource(kb, record, a) && HasSource(kb, record, b)
    ensures a == b
  {
  }

  /** What a new version does to retrieval: other source profiles keep their online versions, its
      own source profile keeps none but it, and it is online itself exactly when its source bytes
      are not superseded ones. Re-importing a profile for superseded source bytes reports
      "ingested" without putting it online. */
  lemma IngestedReplacesOnlineVersion(kb: Kb, record: Record)
    requires Sound(kb) && Ingest(kb, record).Ok? && Ingest(kb, record).value.1.Ingested?
    ensures var (kb', outcome) := Ingest(kb, record).value;
            var pk := outcome.profileVersion;
            && KeysResolve(kb') && pk < |kb'.profileVersions|
            && var source := kb'.profileVersions[pk].sourceVersion;
            && (pk !in Current(kb') <==> SupersededSource(kb, record))
            && (forall q :: q in Current(kb') && q != pk ==> q in Current(kb))
            && (forall q :: q in Current(kb) && q !in Current(kb') ==>
                  kb.sourceVersions[kb.profileVersions[q].sourceVersion].sourceProfile
                  == kb'.sourceVersions[source].sourceProfile)
            && (pk in Current(kb') ==>
                  forall q :: q in Current(kb') && q != pk ==>
                    kb'.sourceVersions[kb'.profileVersions[q].sourceVersion].sourceProfile
                    != kb'.sourceVersions[source].sourceProfile)
  {
    hide Ingest;
    IngestKeepsLedger(kb, record);
    OnlineExactly(kb, record);
    var (kb', outcome) := Ingest(kb, record).value;
    forall q | q in Current(kb') && q != outcome.profileVersion ensures q in Current(kb) {
      assert q < |kb.profileVersions|;
      assert kb'.profileVersions[q].(isCurrent := false) == kb.profileVersions[q].(isCurrent := false);
    }
  }

  lemma OnlineExactly(kb: Kb, record: Record)
    requires Sound(kb) && Ingest(kb, record).Ok? && Ingest(kb, record).value.1.Ingested?
    ensures var (kb', outcome) := Ingest(kb, record).value;
            KeysResolve(kb') && (outcome.profileVersion !in Current(kb') <==> SupersededSource(kb, record))
  {
    hide Ingest;
    IngestKeepsLedger(kb, record);
    var (kb', outcome) := Ingest(kb, record).value;
    var source := kb'.profileVersions[outcome.profileVersion].sourceVersion;
    if outcome.profileVersion !in Current(kb') {
      assert source < |kb.sourceVersions| && kb'.sourceVersions == kb.sourceVersions;
      assert HasSource(kb, record, source);
    }
    if earlier: nat :| HasSource(kb, record, earlier) && !kb.sourceVersions[earlier].isCurrent {
      SourceStays(kb, kb', record, earlier);
      OneSource(kb', record, earlier, source);
    }
  }

  /** What an ingest adds to the version tables is the record's own. */
  lemma NewSourceIsTheRecords(kb: Kb, record: Record, other: Record, source: nat)
    requires Sound(kb) && Ingest(kb, record).Ok? && other.sourceSha != record.sourceSha
    ensures KeysResolve(Ingest(kb, record).value.0)
    ensures HasSource(Ingest(kb, record).value.0, other, source) ==> HasSource(kb, other, source)
  {
    hide Ingest;
    IngestKeepsLedger(kb, record);
    var (kb', outcome) := Ingest(kb, record).value;
    if HasSource(kb', other, source) {
      assert source < |kb.sourceVersions|;
      assert kb'.sourceVersions[source].(isCurrent := false) == kb.sourceVersions[source].(isCurrent := false);
    }
  }

  lemma NewProfileIsTheRecords(kb: Kb, record: Record, other: Record)
    requires Sound(kb) && Ingest(kb, record).Ok? && other.profileSha != record.profileSha
    ensures KeysResolve(Ingest(kb, record).value.0)
    ensures KnownProfile(Ingest(kb, record).value.0, other) ==> KnownProfile(kb, other)
  {
    hide Ingest;
    IngestKeepsLedger(kb, record);
    var (kb', outcome) := Ingest(kb, record).value;
    if KnownProfile(kb', other) {
      var pk :| 0 <= pk < |kb'.profileVersions| && kb'.profileVersions[pk].profileSha == other.profileSha
                && HasSource(kb', other, kb'.profileVersions[pk].sourceVersion);
      assert pk < |kb.profileVersions|;
      assert kb'.profileVersions[pk].(isCurrent := false) == kb.profileVersions[pk].(isCurrent := false);
      var source := kb.profileVersions[pk].sourceVersion;
      assert kb'.sourceVersions[source].(isCurrent := false) == kb.sourceVersions[source].(isCurrent := false);
      assert HasSource(kb, other, source);
    }
  }

  lemma NoSourceBefore(kb: Kb, kb': Kb, record: Record, source: nat)
    requires KeysResolve(kb) && KeysResolve(kb') && Grows(kb, kb') && kb'.sourceVersions == kb.sourceVersions
    ensures HasSource(kb', record, source) ==> HasSource(kb, record, source)
  {
  }

  /** Ingesting a record of known source bytes, then one of new bytes, supersedes the former. */
  lemma NewBytesSupersede(kb: Kb, first: Record, second: Record)
    requires Sound(kb) && Ingest(kb, second).Ok? && second.sourceProfileId == first.sourceProfileId
    requires (exists source: nat :: HasSource(kb, first, source)) && forall source: nat ::
               !HasSource(kb, second, source)
    ensures KeysResolve(Ingest(kb, second).value.0) && SupersededSource(Ingest(kb, second).value.0, first)
  {
    hide Ingest;
    IngestKeepsLedger(kb, second);
    var (kb', outcome) := Ingest(kb, second).value;
    var earlier: nat :| HasSource(kb, first, earlier);
    SourceStays(kb, kb', first, earlier);
    var source := kb'.profileVersions[outcome.profileVersion].sourceVersion;
    if source < |kb.sourceVersions| {
      assert kb'.sourceVersions == kb.sourceVersions;
      NoSourceBefore(kb, kb', second, source);
      assert false;
    }
  }

  lemma OwnerStays(kb: Kb, record: Record, next: Record)
    requires Sound(kb) && Ingest(kb, record).Ok?
    requires next.noticeId == record.noticeId && next.sourceProfileId == record.sourceProfileId
    ensures Sound(Ingest(kb, record).value.0) && Ingest(Ingest(kb, record).value.0, next).Ok?
  {
    hide Ingest;
    IngestKeepsLedger(kb, record);
    var (kb', outcome) := Ingest(kb, record).value;
    IngestKeepsLedger(kb', next);
  }

  lemma TwoCommits(kb: Kb, a: Record, b: Record)
    ensures CommittedAll(kb, [a, b]) == Committed(Committed(kb, a), b)
  {
    assert [a, b][..1] == [a] && [a][..0] == [];
    assert CommittedAll(kb, [a]) == Committed(CommittedAll(kb, []), a);
  }

  /** Source bytes, other bytes that are new, and the first bytes again with a profile that is new:
      the last import reports "ingested", and its version is not online. */
  lemma OldBytesReturn(kb: Kb, a: Record, b: Record, c: Record)
    requires Sound(kb) && Ingest(kb, a).Ok? && c.sourceSha == a.sourceSha != b.sourceSha
    requires a.noticeId == b.noticeId == c.noticeId && a.sourceProfileId == b.sourceProfileId == c.sourceProfileId
    requires !KnownProfile(kb, c) && c.profileSha != a.profileSha && c.profileSha != b.profileSha
    requires forall source: nat :: !HasSource(kb, b, source)
    ensures var r := Ingest(CommittedAll(kb, [a, b]), c);
            && r.Ok? && r.value.1.Ingested? && KeysResolve(r.value.0)
            && r.value.1.profileVersion !in Current(r.value.0)
  {
    hide Ingest, CommittedAll, OwnedByAnotherNotice, Sound, KnownProfile, SupersededSource, Current, HasSource;
    var kb1 := Ingest(kb, a).value.0;
    OwnerStays(kb, a, b);
    var kb2 := Ingest(kb1, b).value.0;
    OwnerStays(kb1, b, c);
    TwoCommits(kb, a, b);
    SoundResolves(kb1);
    forall source: nat ensures !HasSource(kb1, b, source) {
      NewSourceIsTheRecords(kb, a, b, source);
    }
    NewProfileIsTheRecords(kb, a, c);
    NewProfileIsTheRecords(kb1, b, c);
    RecordHasItsSource(kb, a, c);
    NewBytesSupersede(kb1, c, b);
    AlreadyIngestedExactly(kb2, c);
    IngestedReplacesOnlineVersion(kb2, c);
  }

  lemma RecordHasItsSource(kb: Kb, record: Record, same: Record)
    requires Sound(kb) && Ingest(kb, record).Ok?
    requires same.sourceProfileId == record.sourceProfileId && same.sourceSha == record.sourceSha
    ensures KeysResolve(Ingest(kb, record).value.0)
    ensures exists source: nat :: HasSource(Ingest(kb, record).value.0, same, source)
  {
    hide Ingest;
    IngestKeepsLedger(kb, record);
    var (kb', outcome) := Ingest(kb, record).value;
    assert HasSource(kb', same, kb'.profileVersions[outcome.profileVersion].sourceVersion);
  }

  const NEVER_INGESTED := Kb([], [], [], [], [], {})

  function Delivered(source: string, profile: string): (record: Record) {
    Record("n", "", "p", source, profile, [])
  }

  /** It happens on the way from an empty ledger. */
  lemma IngestedWithoutGoingOnline()
    ensures var kb := CommittedAll(NEVER_INGESTED, [Delivered("old", "A"), Delivered("new", "B")]);
            var r := Ingest(kb, Delivered("old", "C"));
            && r.Ok? && r.value.1.Ingested? && KeysResolve(r.value.0)
            && r.value.1.profileVersion !in Current(r.value.0)
  {
    hide Ingest, CommittedAll;
    assert Sound(NEVER_INGESTED);
    IngestKeepsLedger(NEVER_INGESTED, Delivered("old", "A"));
    OldBytesReturn(NEVER_INGESTED, Delivered("old", "A"), Delivered("new", "B"), Delivered("old", "C"));
  }

  lemma ArtifactFound(kb: Kb, key: string, pk: nat)
    requires Sound(kb) && pk < |kb.artifacts| && kb.artifacts[pk].objectKey == key
    ensures One(kb.artifacts, (row: Artifact) => row.objectKey == key) == Ok(Some(pk))
  {
    OneFinds(kb.artifacts, (row: Artifact) => row.objectKey == key, pk);
  }

  lemma {:induction false} ArtifactsAgain(kb: Kb, sourceVersion: nat, keys: seq<string>, pks: seq<nat>)
    requires Sound(kb) && |pks| == |keys|
    requires forall i :: 0 <= i < |keys| ==> pks[i] < |kb.artifacts| && kb.artifacts[pks[i]].objectKey == keys[i]
    ensures EnsureArtifacts(kb, sourceVersion, keys) == Ok((kb, pks))
  {
    hide Where, One, Sound;
    if keys != [] {
      var last := |keys| - 1;
      ArtifactsAgain(kb, sourceVersion, keys[..last], pks[..last]);
      ArtifactFound(kb, keys[last], pks[last]);
      assert pks == pks[..last] + [pks[last]];
    }
  }

  /** Ingesting the same record twice in a row changes no row. */
  lemma IngestTwice(kb: Kb, record: Record)
    requires Sound(kb) && Ingest(kb, record).Ok?
    ensures var (kb1, outcome) := Ingest(kb, record).value;
            Ingest(kb1, record) == Ok((kb1, AlreadyIngested(outcome.profileVersion)))
  {
    IngestKeepsLedger(kb, record);
    var (kb1, outcome) := Ingest(kb, record).value;
    IngestKnown(kb1, record, outcome.profileVersion);
  }

  /** A record whose whole row chain is there is recognised and leaves the tables as they are. */
  lemma IngestKnown(kb: Kb, record: Record, pk: nat)
    requires Sound(kb) && Identifies(kb, pk, record) && Archived(kb, record)
    ensures Ingest(kb, record) == Ok((kb, AlreadyIngested(pk)))
  {
    hide EnsureArtifacts, Where, One;
    var source := kb.profileVersions[pk].sourceVersion;
    var profile := kb.sourceVersions[source].sourceProfile;
    var notice := kb.sourceProfiles[profile].notice;
    OneFinds(kb.notices, (row: Notice) => row.noticeId == record.noticeId, notice);
    assert kb.notices[notice := Notice(record.noticeId, record.metadata)] == kb.notices;
    OneFinds(kb.sourceProfiles, (row: SourceProfile) => row.sourceProfileId == record.sourceProfileId, profile);
    OneFinds(kb.sourceVersions,
             (row: SourceVersion) => row.sourceProfile == profile && row.sourceSha == record.sourceSha, source);
    var pks :| ArchivedAs(kb, record.artifactKeys, pks);
    ArtifactsAgain(kb, source, record.artifactKeys, pks);
    assert kb.(lineage := kb.lineage + Chain(pks)) == kb;
    OneFinds(kb.profileVersions,
             (row: ProfileVersion) => row.sourceVersion == source && row.profileSha == record.profileSha, pk);
  }

  // ---------------------------------------------------------------- runs of importer transactions

  /** run_transaction: commit the ingest or roll every row back. */
  function Committed(kb: Kb, record: Record): (kb': Kb) {
    match Ingest(kb, record)
    case Ok((kb', _)) => kb'
    case Err(_) => kb
  }

  function CommittedAll(kb: Kb, records: seq<Record>): (kb': Kb)
    decreases |records|
  {
    if records == [] then kb else Committed(CommittedAll(kb, records[..|records| - 1]), records[|records| - 1])
  }

  /** Every run of importer transactions, failed ones included, keeps at most one current
      source version per source profile and one current profile version per source version,
      never makes a natural key ambiguous and never loses a row. */
  lemma {:induction false} EveryRunKeepsLedger(kb: Kb, records: seq<Record>)
    requires Sound(kb)
    ensures Sound(CommittedAll(kb, records))
    ensures Grows(kb, CommittedAll(kb, records))
    decreases |records|
  {
    hide Ingest, Sound;
    if records != [] {
      var last := |records| - 1;
      EveryRunKeepsLedger(kb, records[..last]);
      IngestKeepsLedger(CommittedAll(kb, records[..last]), records[last]);
    }
  }

  /** The importer's connection: each table is a field that its methods reassign. */
  class KnowledgeBase {
    var notices: seq<Notice>
    var sourceProfiles: seq<SourceProfile>
    var sourceVersions: seq<SourceVersion>
    var profileVersions: seq<ProfileVersion>
    var artifacts: seq<Artifact>
    var lineage: set<(nat, nat)>

    function Tables(): (kb: Kb)
      reads this
    {
      Kb(notices, sourceProfiles, sourceVersions, profileVersions, artifacts, lineage)
    }

    method Restore(kb: Kb)
      modifies this
      ensures Tables() == kb
    {
      notices, sourceProfiles, sourceVersions := kb.notices, kb.sourceProfiles, kb.sourceVersions;
      profileVersions, artifacts, lineage := kb.profileVersions, kb.artifacts, kb.lineage;
    }

    /** artifact() for each path in turn, then the lineage rows. */
    method ArchiveArtifacts(sourceVersion: nat, keys: seq<string>) returns (r: Result<()>)
      modifies this`artifacts, this`lineage
      ensures match EnsureArtifacts(old(Tables()), sourceVersion, keys)
              case Err(_) => r.Err?
              case Ok((kb, pks)) => r.Ok? && Tables() == kb.(lineage := kb.lineage + Chain(pks))
    {
      hide One;
      var pks: seq<nat> := [];
      for i := 0 to |keys|
        invariant EnsureArtifacts(old(Tables()), sourceVersion, keys[..i]) == Ok((Tables(), pks))
      {
        assert keys[..i + 1][..i] == keys[..i];
        var row := One(artifacts, (row: Artifact) => row.objectKey == keys[i]);
        match row {
          case Err(m) =>
            FailsFromHere(old(Tables()), sourceVersion, keys, i + 1);
            return Err(m);
          case Ok(Some(pk)) => pks := pks + [pk];
          case Ok(None) =>
            pks := pks + [|artifacts|];
            artifacts := artifacts + [Artifact(keys[i], sourceVersion)];
        }
      }
      assert keys[..|keys|] == keys;
      lineage := lineage + Chain(pks);
      r := Ok(());
    }

    method FindSource(record: Record) returns (r: Result<nat>)
      modifies this
      ensures match ResolveSource(old(Tables()), record)
              case Err(_) => r.Err?
              case Ok((kb, sourceVersion)) => r == Ok(sourceVersion) && Tables() == kb
    {
      hide One, Where, RetireSources;
      var notice: nat;
      match One(notices, (row: Notice) => row.noticeId == record.noticeId) {
        case Err(m) => return Err(m);
        case Ok(Some(pk)) =>
          notice := pk;
          notices := notices[pk := notices[pk].(metadata := record.metadata)];
        case Ok(None) =>
          notice := |notices|;
          notices := notices + [Notice(record.noticeId, record.metadata)];
      }
      assert EnsureNotice(old(Tables()), record.noticeId, record.metadata) == Ok((Tables(), notice));
      var sourceProfile: nat;
      match One(sourceProfiles, (row: SourceProfile) => row.sourceProfileId == record.sourceProfileId) {
        case Err(m) => return Err(m);
        case Ok(Some(pk)) =>
          if sourceProfiles[pk].notice != notice { return Err("source_profile_id belongs to another notice"); }
          sourceProfile := pk;
        case Ok(None) =>
          sourceProfile := |sourceProfiles|;
          sourceProfiles := sourceProfiles + [SourceProfile(notice, record.sourceProfileId)];
      }
      match One(sourceVersions, (row: SourceVersion) => row.sourceProfile == sourceProfile
        && row.sourceSha == record.sourceSha) {
        case Err(m) => return Err(m);
        case Ok(Some(pk)) => return Ok(pk);
        case Ok(None) =>
          r := Ok(|sourceVersions|);
          sourceVersions := RetireSources(sourceVersions, sourceProfile);
          sourceVersions := sourceVersions + [SourceVersion(sourceProfile, record.sourceSha, true)];
      }
    }

    method IngestRecord(record: Record) returns (r: Result<Outcome>)
      modifies this
      ensures match Ingest(old(Tables()), record)
              case Err(_) => r.Err?
              case Ok((kb, outcome)) => r == Ok(outcome) && Tables() == kb
    {
      hide One, Where, EnsureArtifacts, Chain, RetireProfiles, ResolveSource;
      var found := FindSource(record);
      if found.Err? { return Err(found.message); }
      var sourceVersion := found.value;
      var archived := ArchiveArtifacts(sourceVersion, record.artifactKeys);
      if archived.Err? { return Err(archived.message); }
      match One(profileVersions, (row: ProfileVersion) => row.sourceVersion == sourceVersion
        && row.profileSha == record.profileSha) {
        case Err(m) => return Err(m);
        case Ok(Some(pk)) => return Ok(AlreadyIngested(pk));
        case Ok(None) =>
          r := Ok(Ingested(|profileVersions|));
          profileVersions := RetireProfiles(profileVersions, sourceVersion);
          profileVersions := profileVersions + [ProfileVersion(sourceVersion, record.profileSha, true)];
      }
    }

    /** run_transaction without its locks and the v2 demotion, which ActivationProtocol models. */
    method RunTransaction(record: Record) returns (r: Result<Outcome>)
      modifies this
      ensures Tables() == Committed(old(Tables()), record)
      ensures r.Ok? <==> Ingest(old(Tables()), record).Ok?
    {
      var before := Tables();
      r := IngestRecord(record);
      if r.Err? {
        Restore(before);
      }
    }
  }

  lemma {:induction false} FailsFromHere(kb: Kb, sourceVersion: nat, keys: seq<string>, i: nat)
    requires i <= |keys| && EnsureArtifacts(kb, sourceVersion, keys[..i]).Err?
    ensures EnsureArtifacts(kb, sourceVersion, keys).Err?
    decreases |keys|
  {
    if i == |keys| {
      assert keys[..i] == keys;
    } else {
      var init := keys[..|keys| - 1];
      assert init[..i] == keys[..i];
      FailsFromHere(kb, sourceVersion, init, i);
    }
  }
}

/** Publication of a request profile by any number of attempts of an analysis run, some of
    them stale (backend/worker/analysis_job.py, backend/worker/postgres_analysis_store.py).

    A JSON document stands for its canonical bytes and SHA-256 is taken to be injective, so a
    digest is a constructor over the document. A claim installs a fresh processing token;
    nothing else is assumed about the dispatcher. */
module ProfilePublication {
  import opened Wrappers

  /** The parts of a Common IR or a request profile that the worker inspects. */
  datatype Document = Document(id: string, schema: string, commonIrId: string, sourceSha: string, body: string)
  datatype Digest = Sha256(content: Document)

  datatype Kind = Source | CommonIr | StructuredProfile

  /** {run}/{type}/{digest}.json for derived objects; the upload chooses the source key. */
  datatype ObjectKey = Upload(name: string) | Derived(run: nat, kind: Kind, digest: Digest)

  datatype ArtifactRef = ArtifactRef(key: ObjectKey, digest: Digest, kind: Kind, logicalId: string, schema: string)
  datatype ArtifactRow = ArtifactRow(run: nat, ref: ArtifactRef)
  datatype ProfileRow = ProfileRow(profileId: string, schema: string, structured: Option<nat>)

  /** The processing run that holds the lease, and whether the run is running and leased. */
  datatype Dispatch = Dispatch(token: nat, live: bool)

  datatype Db = Db(
    artifacts: seq<ArtifactRow>,
    lineage: set<(nat, nat)>,
    profiles: map<nat, ProfileRow>,
    dispatch: map<nat, Dispatch>)

  const REQUEST_PROFILE_SCHEMA := "pre_review_request_profile/v0.1"
  const COMMON_IR_SCHEMA := "common_ir_v1"

  function DerivedRef(run: nat, kind: Kind, content: Document, logicalId: string): (ref: ArtifactRef) {
    ArtifactRef(Derived(run, kind, Sha256(content)), Sha256(content), kind, logicalId, content.schema)
  }

  // ---------------------------------------------------------------- register_request_profile

  ghost predicate HasKey(artifacts: seq<ArtifactRow>, key: ObjectKey) {
    exists pk :: 0 <= pk < |artifacts| && artifacts[pk].ref.key == key
  }

  function Lookup(artifacts: seq<ArtifactRow>, key: ObjectKey): (pk: Option<nat>)
    ensures pk.None? <==> !HasKey(artifacts, key)
    ensures pk.Some? ==> pk.value < |artifacts| && artifacts[pk.value].ref.key == key
  {
    if artifacts == [] then None
    else if artifacts[|artifacts| - 1].ref.key == key then Some(|artifacts| - 1)
    else Lookup(artifacts[..|artifacts| - 1], key)
  }

  /** INSERT ... ON CONFLICT DO NOTHING, then compare with the row that was there. */
  function InsertArtifact(db: Db, run: nat, ref: ArtifactRef): (r: Result<(Db, nat)>) {
    match Lookup(db.artifacts, ref.key)
    case None => Ok((db.(artifacts := db.artifacts + [ArtifactRow(run, ref)]), |db.artifacts|))
    case Some(pk) =>
      if db.artifacts[pk] == ArtifactRow(run, ref) then Ok((db, pk))
      else Result<(Db, nat)>.Err("content-addressed artifact conflicts with different lineage")
  }

  /** The fence: this attempt's processing run still holds the live lease. */
  predicate Fenced(db: Db, run: nat, token: nat) {
    run in db.dispatch && db.dispatch[run] == Dispatch(token, true)
  }

  function StructuredDigest(db: Db, row: ProfileRow): (digest: Option<Digest>) {
    if row.structured.Some? && row.structured.value < |db.artifacts| then
      Some(db.artifacts[row.structured.value].ref.digest)
    else None
  }

  /** One transaction: Err rolls everything back. */
  function Register(db: Db, run: nat, token: nat, source: ObjectKey, common: ArtifactRef, structured: ArtifactRef,
                    profile: Document)
    : (r: Result<Db>)
  {
    if !Fenced(db, run, token) then Err("processing lease was lost before profile registration")
    else match Lookup(db.artifacts, source)
    case None => Err("claimed source artifact is not registered")
    case Some(sourcePk) =>
      if !(db.artifacts[sourcePk].run == run && db.artifacts[sourcePk].ref.kind == Source) then
        Result<Db>.Err("claimed source artifact is not registered")
      else match InsertArtifact(db, run, common)
      case Err(m) => Err(m)
      case Ok((db1, commonPk)) =>
        match InsertArtifact(db1, run, structured)
        case Err(m) => Err(m)
        case Ok((db2, profilePk)) => Link(db2.(lineage := db2.lineage + {(sourcePk, commonPk), (commonPk, profilePk)}),
                                          run, profilePk, structured, profile)
  }

  function Link(db: Db, run: nat, profilePk: nat, structured: ArtifactRef, profile: Document): (r: Result<Db>) {
    if run in db.profiles then
      var existing := db.profiles[run];
      if existing.profileId == profile.id && existing.schema == profile.schema
         && StructuredDigest(db, existing) == Some(structured.digest)
      then Ok(db)
      else Err("retry produced a different request profile artifact")
    else Ok(db.(profiles := db.profiles[run := ProfileRow(profile.id, profile.schema, Some(profilePk))]))
  }

  /** The trusted PostgreSQL adapter. */
  class PostgresAnalysisStore {
    var artifacts: seq<ArtifactRow>
    var lineage: set<(nat, nat)>
    var profiles: map<nat, ProfileRow>
    var dispatch: map<nat, Dispatch>

    function Tables(): (db: Db)
      reads this
    {
      Db(artifacts, lineage, profiles, dispatch)
    }

    method AddArtifact(run: nat, ref: ArtifactRef) returns (r: Result<nat>)
      modifies this`artifacts
      ensures match InsertArtifact(old(Tables()), run, ref)
              case Err(_) => r.Err? && Tables() == old(Tables())
              case Ok((db, pk)) => r == Ok(pk) && Tables() == db
    {
      var existing := Lookup(artifacts, ref.key);
      if existing.None? {
        r := Ok(|artifacts|);
        artifacts := artifacts + [ArtifactRow(run, ref)];
      } else if artifacts[existing.value] == ArtifactRow(run, ref) {
        r := Ok(existing.value);
      } else {
        r := Err("content-addressed artifact conflicts with different lineage");
      }
    }

    /** The existing-row check, or the ingest and link of a new row. */
    method LinkProfile(run: nat, profilePk: nat, structured: ArtifactRef, profile: Document) returns (r: Result<()>)
      modifies this`profiles
      ensures match Link(old(Tables()), run, profilePk, structured, profile)
              case Err(_) => r.Err? && Tables() == old(Tables())
              case Ok(db) => r.Ok? && Tables() == db
    {
      if run in profiles {
        var existing := profiles[run];
        if existing.profileId != profile.id || existing.schema != profile.schema
           || StructuredDigest(Tables(), existing) != Some(structured.digest) {
          return Err("retry produced a different request profile artifact");
        }
        return Ok(());
      }
      profiles := profiles[run := ProfileRow(profile.id, profile.schema, Some(profilePk))];
      r := Ok(());
    }

    method RegisterRequestProfile(run: nat, token: nat, source: ObjectKey, common: ArtifactRef,
                                  structured: ArtifactRef, profile: Document)
      returns (r: Result<()>)
      modifies this
      ensures match Register(old(Tables()), run, token, source, common, structured, profile)
              case Err(_) => r.Err? && Tables() == old(Tables())
              case Ok(db) => r.Ok? && Tables() == db
    {
      hide Lookup, InsertArtifact, Link;
      var before := Tables();
      if !Fenced(before, run, token) { return Err("processing lease was lost before profile registration"); }
      var sourcePk := Lookup(artifacts, source);
      if sourcePk.None? { return Err("claimed source artifact is not registered"); }
      if !(artifacts[sourcePk.value].run == run && artifacts[sourcePk.value].ref.kind == Source) {
        return Err("claimed source artifact is not registered");
      }
      var commonPk := AddArtifact(run, common);
      if commonPk.Err? { return Err(commonPk.message); }
      var profilePk := AddArtifact(run, structured);
      if profilePk.Err? {
        artifacts, lineage, profiles, dispatch := before.artifacts, before.lineage, before.profiles, before.dispatch;
        return Err(profilePk.message);
      }
      lineage := lineage + {(sourcePk.value, commonPk.value), (commonPk.value, profilePk.value)};
      r := LinkProfile(run, profilePk.value, structured, profile);
      if r.Err? {
        artifacts, lineage, profiles, dispatch := before.artifacts, before.lineage, before.profiles, before.dispatch;
      }
    }
  }

  // ---------------------------------------------------------------- attempts

  /** One claimed attempt of AnalysisJobHandler.handle. */
  datatype Claim = Claim(run: nat, token: nat, source: ObjectKey, sourceSha: string)

  datatype Phase =
    | Claimed
    | CacheMiss
    | Produced(common: Document, profile: Document)
    | PutCommon(common: Document, profile: Document)
    | PutBoth(common: Document, profile: Document)
    | CacheHit(commonRef: ArtifactRef, profileRef: ArtifactRef)
    | LoadedCommon(common: Document, profileRef: ArtifactRef)
    | Obtained(common: Document, profile: Document)
    | Building(common: Document, profile: Document)
    | Stopped

  datatype Attempt = Attempt(claim: Claim, phase: Phase)
  datatype World = World(db: Db, storage: map<ObjectKey, Document>, attempts: seq<Attempt>, issued: set<nat>)

  function CommonRef(run: nat, common: Document): (ref: ArtifactRef) {
    DerivedRef(run, CommonIr, common, common.id)
  }

  function ProfileRef(run: nat, profile: Document): (ref: ArtifactRef) {
    DerivedRef(run, StructuredProfile, profile, profile.id)
  }

  function PutIfAbsent(storage: map<ObjectKey, Document>, key: ObjectKey, content: Document)
      : (after: map<ObjectKey, Document>) {
    if key in storage then storage else storage[key := content]
  }

  /** cached_request_profile: the run's linked structured artifact with one of its Common IR parents. */
  ghost predicate Cached(db: Db, run: nat, commonRef: ArtifactRef, profileRef: ArtifactRef) {
    && run in db.profiles && db.profiles[run].structured.Some?
    && var pk := db.profiles[run].structured.value;
    && pk < |db.artifacts| && db.artifacts[pk].ref == profileRef
    && exists parent: nat :: (parent, pk) in db.lineage && parent < |db.artifacts|
         && db.artifacts[parent].ref == commonRef && commonRef.kind == CommonIr
  }

  predicate Loads(storage: map<ObjectKey, Document>, ref: ArtifactRef, content: Document) {
    ref.key in storage && storage[ref.key] == content && Sha256(content) == ref.digest
  }

  /** _validate_profile_lineage, with the profile id of the run given. */
  predicate LineageValid(expectedId: string, sourceSha: string, common: Document, profile: Document) {
    && common.schema == COMMON_IR_SCHEMA && common.sourceSha == sourceSha
    && profile.schema == REQUEST_PROFILE_SCHEMA && profile.id == expectedId
    && profile.commonIrId == common.id && profile.sourceSha == sourceSha
  }

  ghost predicate AttemptStep(profileId: nat -> string, w: World, w': World, c: Claim, p: Phase, p': Phase) {
    match p
    case Claimed =>
      && w'.db == w.db && w'.storage == w.storage
      && ((p' == CacheMiss && !exists commonRef: ArtifactRef, profileRef: ArtifactRef ::
           Cached(w.db, c.run, commonRef, profileRef))
          || exists commonRef: ArtifactRef, profileRef: ArtifactRef ::
               Cached(w.db, c.run, commonRef, profileRef) && p' == CacheHit(commonRef, profileRef))
    case CacheMiss =>
      && w'.db == w.db && w'.storage == w.storage
      && exists common: Document, profile: Document ::
           profile.schema == REQUEST_PROFILE_SCHEMA && p' == Produced(common, profile)
    case Produced(common, profile) =>
      && w'.db == w.db && p' == PutCommon(common, profile)
      && w'.storage == PutIfAbsent(w.storage, CommonRef(c.run, common).key, common)
    case PutCommon(common, profile) =>
      && w'.db == w.db && p' == PutBoth(common, profile)
      && w'.storage == PutIfAbsent(w.storage, ProfileRef(c.run, profile).key, profile)
    case PutBoth(common, profile) =>
      && w'.storage == w.storage
      && Register(w.db, c.run, c.token, c.source, CommonRef(c.run, common), ProfileRef(c.run, profile), profile)
         == Ok(w'.db)
      && p' in {Obtained(common, profile), Stopped} // the answer to the commit may get lost
    case CacheHit(commonRef, profileRef) =>
      && w'.db == w.db && w'.storage == w.storage
      && exists common: Document :: Loads(w.storage, commonRef, common) && p' == LoadedCommon(common, profileRef)
    case LoadedCommon(common, profileRef) =>
      && w'.db == w.db && w'.storage == w.storage
      && exists profile: Document :: Loads(w.storage, profileRef, profile) && p' == Obtained(common, profile)
    case Obtained(common, profile) =>
      && w'.db == w.db && w'.storage == w.storage
      && LineageValid(profileId(c.run), c.sourceSha, common, profile) && p' == Building(common, profile)
    case _ => false
  }

  /** Attempt i moves on, or fails or crashes and leaves everything as it is. */
  ghost predicate Moves(profileId: nat -> string, w: World, w': World, i: nat) {
    && i < |w.attempts| == |w'.attempts|
    && (forall j :: 0 <= j < |w.attempts| && j != i ==> w'.attempts[j] == w.attempts[j])
    && w'.attempts[i].claim == w.attempts[i].claim && w'.issued == w.issued
    && (|| AttemptStep(profileId, w, w', w.attempts[i].claim, w.attempts[i].phase, w'.attempts[i].phase)
        || (w'.db == w.db && w'.storage == w.storage && w'.attempts[i].phase == Stopped))
  }

  /** The step of attempt i is a registration that commits. */
  ghost predicate Registers(w: World, w': World, i: nat) {
    && i < |w.attempts| && w.attempts[i].phase.PutBoth?
    && var (c, p) := (w.attempts[i].claim, w.attempts[i].phase);
       Register(w.db, c.run, c.token, c.source, CommonRef(c.run, p.common), ProfileRef(c.run, p.profile), p.profile)
       == Ok(w'.db)
  }

  /** The dispatcher hands the run to a new attempt under a token it never issued before. */
  ghost predicate Claims(w: World, w': World, c: Claim) {
    && c.token !in w.issued
    && w' == w.(db := w.db.(dispatch := w.db.dispatch[c.run := Dispatch(c.token, true)]),
                attempts := w.attempts + [Attempt(c, Claimed)], issued := w.issued + {c.token})
  }

  /** A lease runs out, or the run stops running. */
  ghost predicate Expires(w: World, w': World, run: nat) {
    && run in w.db.dispatch
    && w' == w.(db := w.db.(dispatch := w.db.dispatch[run := w.db.dispatch[run].(live := false)]))
  }

  ghost predicate Next(profileId: nat -> string, w: World, w': World) {
    || (exists i: nat :: Moves(profileId, w, w', i))
    || (exists c: Claim :: Claims(w, w', c))
    || (exists run: nat :: Expires(w, w', run))
  }

  // ---------------------------------------------------------------- the invariant

  ghost predicate ContentAddressed(w: World) {
    forall key :: key in w.storage && key.Derived? ==> Sha256(w.storage[key]) == key.digest
  }

  /** A derived row is stored under its key with the content its digest names. */
  ghost predicate RowsStored(w: World) {
    forall pk :: 0 <= pk < |w.db.artifacts| && w.db.artifacts[pk].ref.kind != Source ==>
      var row := w.db.artifacts[pk];
      && row.ref.key == Derived(row.run, row.ref.kind, row.ref.digest)
      && row.ref.key in w.storage && Sha256(w.storage[row.ref.key]) == row.ref.digest
  }

  ghost predicate ProfilesLinked(db: Db) {
    forall run :: run in db.profiles ==>
      && db.profiles[run].structured.Some? && db.profiles[run].structured.value < |db.artifacts|
      && db.artifacts[db.profiles[run].structured.value].run == run
      && db.artifacts[db.profiles[run].structured.value].ref.kind == StructuredProfile
  }

  /** The run's registered structured profile is this document. */
  ghost predicate Registered(db: Db, run: nat, profile: Document) {
    && run in db.profiles && StructuredDigest(db, db.profiles[run]) == Some(Sha256(profile))
  }

  ghost predicate AttemptOk(w: World, attempt: Attempt) {
    var run := attempt.claim.run;
    && attempt.claim.token in w.issued
    && match attempt.phase
       case PutCommon(common, _) => CommonRef(run, common).key in w.storage
       case PutBoth(common, profile) =>
         CommonRef(run, common).key in w.storage && ProfileRef(run, profile).key in w.storage
       case CacheHit(_, profileRef) => Registered(w.db, run, profileRef.digest.content)
       case LoadedCommon(_, profileRef) => Registered(w.db, run, profileRef.digest.content)
       case Obtained(_, profile) => Registered(w.db, run, profile)
       case Building(_, profile) => Registered(w.db, run, profile)
       case _ => true
  }

  ghost predicate Inv(w: World) {
    && ContentAddressed(w) && RowsStored(w) && ProfilesLinked(w.db)
    && (forall i :: 0 <= i < |w.attempts| ==> AttemptOk(w, w.attempts[i]))
    && (forall run :: run in w.db.dispatch ==> w.db.dispatch[run].token in w.issued)
  }

  /** Objects, rows and registrations are only ever added. */
  ghost predicate Extends(w: World, w': World) {
    && (forall key :: key in w.storage ==> key in w'.storage && w'.storage[key] == w.storage[key])
    && w.db.artifacts <= w'.db.artifacts && w.db.lineage <= w'.db.lineage
    && (forall run :: run in w.db.profiles ==> run in w'.db.profiles && w'.db.profiles[run] == w.db.profiles[run])
    && w.issued <= w'.issued
  }

  lemma AttemptSurvives(w: World, w': World, attempt: Attempt)
    requires AttemptOk(w, attempt) && Extends(w, w')
    ensures AttemptOk(w', attempt)
  {
  }

  lemma InsertAdds(db: Db, run: nat, ref: ArtifactRef)
    requires InsertArtifact(db, run, ref).Ok?
    ensures var (db', pk) := InsertArtifact(db, run, ref).value;
            && db' == db.(artifacts := db'.artifacts) && db.artifacts <= db'.artifacts
            && pk < |db'.artifacts| && db'.artifacts[pk] == ArtifactRow(run, ref)
            && (forall i :: |db.artifacts| <= i < |db'.artifacts| ==> db'.artifacts[i] == ArtifactRow(run, ref))
  {
  }

  /** What one successful registration does, whether it is the first of its run or a retry. */
  lemma RegisterAdds(db: Db, run: nat, token: nat, source: ObjectKey, common: ArtifactRef, structured: ArtifactRef,
                     profile: Document)
    requires Register(db, run, token, source, common, structured, profile).Ok?
    requires ProfilesLinked(db) && structured.kind == StructuredProfile
    ensures var db' := Register(db, run, token, source, common, structured, profile).value;
            && Fenced(db, run, token) && db'.dispatch == db.dispatch
            && db.artifacts <= db'.artifacts && db.lineage <= db'.lineage && ProfilesLinked(db')
            && (forall i :: |db.artifacts| <= i < |db'.artifacts| ==>
                  db'.artifacts[i] == ArtifactRow(run, common) || db'.artifacts[i] == ArtifactRow(run, structured))
            && run in db'.profiles && StructuredDigest(db', db'.profiles[run]) == Some(structured.digest)
            && (forall r :: r in db.profiles ==> r in db'.profiles && db'.profiles[r] == db.profiles[r])
            && db'.profiles.Keys == db.profiles.Keys + {run}
            && ArtifactRow(run, common) in db'.artifacts && ArtifactRow(run, structured) in db'.artifacts
  {
    hide InsertArtifact, Lookup, Link;
    InsertAdds(db, run, common);
    var (db1, commonPk) := InsertArtifact(db, run, common).value;
    InsertAdds(db1, run, structured);
    var (db2, profilePk) := InsertArtifact(db1, run, structured).value;
    var sourcePk := Lookup(db.artifacts, source).value;
    LinkAdds(db2.(lineage := db2.lineage + {(sourcePk, commonPk), (commonPk, profilePk)}), run, profilePk, structured,
      profile);
  }

  lemma LinkAdds(db: Db, run: nat, profilePk: nat, structured: ArtifactRef, profile: Document)
    requires Link(db, run, profilePk, structured, profile).Ok? && ProfilesLinked(db)
    requires profilePk < |db.artifacts| && db.artifacts[profilePk] == ArtifactRow(run, structured)
             && structured.kind == StructuredProfile
    ensures var db' := Link(db, run, profilePk, structured, profile).value;
            && db' == db.(profiles := db'.profiles) && ProfilesLinked(db')
            && run in db'.profiles && StructuredDigest(db', db'.profiles[run]) == Some(structured.digest)
            && (forall r :: r in db.profiles ==> r in db'.profiles && db'.profiles[r] == db.profiles[r])
            && db'.profiles.Keys == db.profiles.Keys + {run}
  {
  }

  /** A successful registration stores what it references: both objects were put before it. */
  lemma RegistrationKeepsTables(w: World, w': World, c: Claim, common: Document, profile: Document)
    requires ContentAddressed(w) && RowsStored(w) && ProfilesLinked(w.db) && w'.storage == w.storage
             && w'.issued == w.issued
    requires CommonRef(c.run, common).key in w.storage && ProfileRef(c.run, profile).key in w.storage
    requires Register(w.db, c.run, c.token, c.source, CommonRef(c.run, common), ProfileRef(c.run, profile), profile)
             == Ok(w'.db)
    ensures ContentAddressed(w') && RowsStored(w') && ProfilesLinked(w'.db) && Extends(w, w')
    ensures w'.db.dispatch == w.db.dispatch
  {
    hide Register, ProfilesLinked;
    RegisterAdds(w.db, c.run, c.token, c.source, CommonRef(c.run, common), ProfileRef(c.run, profile), profile);
  }

  lemma PutKeepsTables(w: World, w': World, key: ObjectKey, content: Document)
    requires ContentAddressed(w) && RowsStored(w) && key.Derived? && key.digest == Sha256(content)
    requires w'.db == w.db && w'.issued == w.issued && w'.storage == PutIfAbsent(w.storage, key, content)
    ensures ContentAddressed(w') && RowsStored(w') && Extends(w, w')
  {
  }

  /** Everything except the attempts themselves, after any one move. */
  lemma MoveKeepsTables(profileId: nat -> string, w: World, w': World, i: nat)
    requires Inv(w) && Moves(profileId, w, w', i)
    ensures ContentAddressed(w') && RowsStored(w') && ProfilesLinked(w'.db) && Extends(w, w')
    ensures w'.db.dispatch == w.db.dispatch
  {
    hide Register, LineageValid, ProfilesLinked, PutIfAbsent, Cached;
    var c, p := w.attempts[i].claim, w.attempts[i].phase;
    assert AttemptOk(w, w.attempts[i]);
    if Registers(w, w', i) {
      RegistrationKeepsTables(w, w', c, p.common, p.profile);
    } else if p.Produced? && w'.attempts[i].phase.PutCommon? {
      PutKeepsTables(w, w', CommonRef(c.run, p.common).key, p.common);
    } else if p.PutCommon? && w'.attempts[i].phase.PutBoth? {
      PutKeepsTables(w, w', ProfileRef(c.run, p.profile).key, p.profile);
    }
  }

  lemma MoveKeepsMover(profileId: nat -> string, w: World, w': World, i: nat)
    requires Inv(w) && Moves(profileId, w, w', i) && Extends(w, w')
    ensures AttemptOk(w', w'.attempts[i])
  {
    hide Register, LineageValid, ContentAddressed, RowsStored;
    var c, p := w.attempts[i].claim, w.attempts[i].phase;
    assert AttemptOk(w, w.attempts[i]);
    if p.PutBoth? && w'.attempts[i].phase.Obtained? {
      RegisterAdds(w.db, c.run, c.token, c.source, CommonRef(c.run, p.common), ProfileRef(c.run, p.profile), p.profile);
    }
  }

  /** Any move of any attempt, live or stale, keeps the invariant and only adds. */
  lemma MoveKeepsInv(profileId: nat -> string, w: World, w': World, i: nat)
    requires Inv(w) && Moves(profileId, w, w', i)
    ensures Inv(w') && Extends(w, w')
  {
    hide AttemptStep, AttemptOk, ContentAddressed, RowsStored, ProfilesLinked, Extends;
    MoveKeepsTables(profileId, w, w', i);
    MoveKeepsMover(profileId, w, w', i);
    forall j | 0 <= j < |w'.attempts| ensures AttemptOk(w', w'.attempts[j]) {
      if j != i {
        AttemptSurvives(w, w', w.attempts[j]);
      }
    }
  }

  lemma NextKeepsInv(profileId: nat -> string, w: World, w': World)
    requires Inv(w) && Next(profileId, w, w')
    ensures Inv(w') && Extends(w, w')
  {
    hide Moves, ContentAddressed, RowsStored, ProfilesLinked, AttemptOk;
    if i: nat :| Moves(profileId, w, w', i) {
      MoveKeepsInv(profileId, w, w', i);
    } else {
      DispatchKeepsInv(w, w');
    }
  }

  lemma DispatchKeepsInv(w: World, w': World)
    requires Inv(w) && ((exists c: Claim :: Claims(w, w', c)) || exists run: nat :: Expires(w, w', run))
    ensures Inv(w') && Extends(w, w')
  {
    forall i | 0 <= i < |w.attempts| ensures AttemptOk(w', w.attempts[i]) {
      AttemptSurvives(w, w', w.attempts[i]);
    }
  }

  // ---------------------------------------------------------------- one registration per run

  ghost predicate Parent(db: Db, parent: nat, pk: nat) {
    (parent, pk) in db.lineage && parent < |db.artifacts|
  }

  /** The run's profile was derived from this Common IR and from nothing else. */
  ghost predicate RegisteredCommon(db: Db, run: nat, common: Document) {
    && run in db.profiles && db.profiles[run].structured.Some?
    && var pk := db.profiles[run].structured.value;
    && (exists parent: nat :: Parent(db, parent, pk))
    && (forall parent: nat :: Parent(db, parent, pk) ==> db.artifacts[parent].ref == CommonRef(run, common))
  }

  /** Derived rows belong to runs with a profile, each made from one Common IR. */
  ghost predicate Published(db: Db) {
    && (forall parent, pk :: (parent, pk) in db.lineage ==> parent < |db.artifacts| && pk < |db.artifacts|)
    && (forall pk :: 0 <= pk < |db.artifacts| && db.artifacts[pk].ref.kind != Source ==>
         db.artifacts[pk].run in db.profiles)
    && (forall run :: run in db.profiles ==> exists common: Document :: RegisteredCommon(db, run, common))
  }

  /** The last claim of the run was this attempt's, whether its lease still holds or not. */
  predicate LastClaim(db: Db, c: Claim) {
    c.run in db.dispatch && db.dispatch[c.run].token == c.token
  }

  /** An attempt that missed the cache stays the only one that could have registered, until the
      run is claimed again; one that has a Common IR has the registered one. */
  ghost predicate CommonOk(w: World, attempt: Attempt) {
    var c := attempt.claim;
    match attempt.phase
    case CacheMiss => LastClaim(w.db, c) ==> c.run !in w.db.profiles
    case Produced(_, _) => LastClaim(w.db, c) ==> c.run !in w.db.profiles
    case PutCommon(_, _) => LastClaim(w.db, c) ==> c.run !in w.db.profiles
    case PutBoth(_, _) => LastClaim(w.db, c) ==> c.run !in w.db.profiles
    case CacheHit(commonRef, _) => RegisteredCommon(w.db, c.run, commonRef.digest.content)
    case LoadedCommon(common, _) => RegisteredCommon(w.db, c.run, common)
    case Obtained(common, _) => RegisteredCommon(w.db, c.run, common)
    case Building(common, _) => RegisteredCommon(w.db, c.run, common)
    case _ => true
  }

  ghost predicate OneRegistration(w: World) {
    && Published(w.db)
    && (forall i :: 0 <= i < |w.attempts| ==> CommonOk(w, w.attempts[i]))
    && (forall i, j :: 0 <= i < j < |w.attempts| ==> w.attempts[i].claim.token != w.attempts[j].claim.token)
  }

  /** A Common IR that is registered stays so, as long as no other profile row gets a parent. */
  ghost predicate KeepsParents(db: Db, db': Db) {
    forall run :: run in db.profiles && db.profiles[run].structured.Some? ==>
      && run in db'.profiles && db'.profiles[run] == db.profiles[run]
      && var pk := db.profiles[run].structured.value;
         forall parent: nat :: Parent(db', parent, pk) <==> Parent(db, parent, pk)
  }

  lemma CommonStays(db: Db, db': Db, run: nat, common: Document)
    requires db.artifacts <= db'.artifacts && KeepsParents(db, db') && RegisteredCommon(db, run, common)
    ensures RegisteredCommon(db', run, common)
  {
    var pk := db.profiles[run].structured.value;
    var parent: nat :| Parent(db, parent, pk);
    assert Parent(db', parent, pk);
  }

  /** An artifact of a run without any is inserted, not reused. */
  lemma InsertsFresh(db: Db, run: nat, ref: ArtifactRef)
    requires InsertArtifact(db, run, ref).Ok?
    requires forall pk :: 0 <= pk < |db.artifacts| ==> db.artifacts[pk] != ArtifactRow(run, ref)
    ensures InsertArtifact(db, run, ref)
         == Ok((db.(artifacts := db.artifacts + [ArtifactRow(run, ref)]), |db.artifacts|))
  {
  }

  /** Two new rows of a run, the edge from the source to the first and the one between them, and
      the profile that the second one is. */
  ghost predicate AddsRun(db: Db, db': Db, run: nat, common: Document, profile: Document, sourcePk: nat) {
    var n := |db.artifacts|;
    && sourcePk < n && run !in db.profiles
    && db'.artifacts
       == db.artifacts + [ArtifactRow(run, CommonRef(run, common)), ArtifactRow(run, ProfileRef(run, profile))]
    && db'.lineage == db.lineage + {(sourcePk, n), (n, n + 1)}
    && db'.profiles == db.profiles[run := ProfileRow(profile.id, profile.schema, Some(n + 1))]
  }

  lemma FirstRegistration(db: Db, db': Db, c: Claim, common: Document, profile: Document) returns (sourcePk: nat)
    requires Published(db) && c.run !in db.profiles
    requires Register(db, c.run, c.token, c.source, CommonRef(c.run, common), ProfileRef(c.run, profile), profile)
             == Ok(db')
    ensures AddsRun(db, db', c.run, common, profile, sourcePk)
  {
    hide InsertArtifact, Lookup;
    var (one, two) := (CommonRef(c.run, common), ProfileRef(c.run, profile));
    InsertsFresh(db, c.run, one);
    var db1 := InsertArtifact(db, c.run, one).value.0;
    InsertsFresh(db1, c.run, two);
    sourcePk := Lookup(db.artifacts, c.source).value;
    assert db.artifacts + [ArtifactRow(c.run, one)] + [ArtifactRow(c.run, two)]
        == db.artifacts + [ArtifactRow(c.run, one), ArtifactRow(c.run, two)];
  }

  /** No registered profile gets another parent, and the new one has the new Common IR only. */
  lemma NewEdgesAreApart(db: Db, db': Db, run: nat, common: Document, profile: Document, sourcePk: nat)
    requires Published(db) && ProfilesLinked(db) && AddsRun(db, db', run, common, profile, sourcePk)
    ensures KeepsParents(db, db') && RegisteredCommon(db', run, common)
  {
    hide RegisteredCommon;
    var pk := |db.artifacts| + 1;
    forall parent: nat ensures Parent(db', parent, pk) <==> parent == pk - 1 {
      assert (parent, pk) !in db.lineage;
    }
    OnlyParent(db', run, common, pk - 1, pk);
  }

  lemma OnlyParent(db: Db, run: nat, common: Document, commonPk: nat, pk: nat)
    requires run in db.profiles && db.profiles[run].structured == Some(pk)
    requires commonPk < |db.artifacts| && db.artifacts[commonPk].ref == CommonRef(run, common)
    requires forall parent: nat :: Parent(db, parent, pk) <==> parent == commonPk
    ensures RegisteredCommon(db, run, common)
  {
    hide Parent;
    assert Parent(db, commonPk, pk);
  }

  lemma FirstRegistrationPublishes(db: Db, db': Db, c: Claim, common: Document, profile: Document)
    requires Published(db) && ProfilesLinked(db) && c.run !in db.profiles
    requires Register(db, c.run, c.token, c.source, CommonRef(c.run, common), ProfileRef(c.run, profile), profile)
             == Ok(db')
    ensures Published(db') && RegisteredCommon(db', c.run, common) && KeepsParents(db, db')
  {
    hide Register, RegisteredCommon, KeepsParents;
    var sourcePk := FirstRegistration(db, db', c, common, profile);
    NewEdgesAreApart(db, db', c.run, common, profile, sourcePk);
    forall run | run in db'.profiles ensures exists document: Document :: RegisteredCommon(db', run, document) {
      if run != c.run {
        var document: Document :| RegisteredCommon(db, run, document);
        CommonStays(db, db', run, document);
      }
    }
  }

  /** A run with a profile is a run with something to resume from. */
  lemma PublishedIsCached(db: Db, run: nat)
    requires Published(db) && ProfilesLinked(db) && run in db.profiles
    ensures exists commonRef: ArtifactRef, profileRef: ArtifactRef :: Cached(db, run, commonRef, profileRef)
  {
    var common: Document :| RegisteredCommon(db, run, common);
    var pk := db.profiles[run].structured.value;
    var parent: nat :| Parent(db, parent, pk);
    assert Cached(db, run, CommonRef(run, common), db.artifacts[pk].ref);
  }

  /** Whatever is resumed, is resumed with the registered Common IR. */
  lemma CachedCommonIsRegistered(db: Db, run: nat, commonRef: ArtifactRef, profileRef: ArtifactRef)
    requires Published(db) && Cached(db, run, commonRef, profileRef)
    ensures RegisteredCommon(db, run, commonRef.digest.content)
  {
    var pk := db.profiles[run].structured.value;
    var parent: nat :| (parent, pk) in db.lineage && parent < |db.artifacts| && db.artifacts[parent].ref == commonRef;
    assert Parent(db, parent, pk);
    var common: Document :| RegisteredCommon(db, run, common);
  }

  /** A registration is the first of its run: no other attempt passes the fence with it. */
  lemma RegistrationIsFirst(w: World, w': World, i: nat)
    requires Inv(w) && OneRegistration(w) && Registers(w, w', i)
    ensures w.attempts[i].claim.run !in w.db.profiles
    ensures Published(w'.db) && KeepsParents(w.db, w'.db)
    ensures RegisteredCommon(w'.db, w.attempts[i].claim.run, w.attempts[i].phase.common)
  {
    hide InsertArtifact, Lookup, Link, Published, RegisteredCommon, KeepsParents, ProfilesLinked, RowsStored,
      ContentAddressed;
    var (c, p) := (w.attempts[i].claim, w.attempts[i].phase);
    assert CommonOk(w, w.attempts[i]) && LastClaim(w.db, c);
    FirstRegistrationPublishes(w.db, w'.db, c, p.common, p.profile);
  }

  /** What a step means for an attempt that does not take it. */
  lemma CommonOkStays(w: World, w': World, attempt: Attempt)
    requires CommonOk(w, attempt) && w.db.artifacts <= w'.db.artifacts && KeepsParents(w.db, w'.db)
    requires LastClaim(w'.db, attempt.claim) ==>
               LastClaim(w.db, attempt.claim)
                 && (attempt.claim.run in w'.db.profiles ==> attempt.claim.run in w.db.profiles)
    ensures CommonOk(w', attempt)
  {
    hide RegisteredCommon, KeepsParents;
    forall common | RegisteredCommon(w.db, attempt.claim.run, common)
      ensures RegisteredCommon(w'.db, attempt.claim.run, common)
    {
      CommonStays(w.db, w'.db, attempt.claim.run, common);
    }
  }

  /** ... and for the attempt that does. */
  lemma CommonOkOfMover(profileId: nat -> string, w: World, w': World, i: nat)
    requires Inv(w) && OneRegistration(w) && Moves(profileId, w, w', i)
    ensures CommonOk(w', w'.attempts[i])
  {
    hide Register, LineageValid, Published, RegisteredCommon, ContentAddressed, RowsStored, ProfilesLinked, Cached,
      AttemptOk;
    var (c, p, p') := (w.attempts[i].claim, w.attempts[i].phase, w'.attempts[i].phase);
    assert CommonOk(w, w.attempts[i]);
    if p.PutBoth? && p'.Obtained? {
      assert Registers(w, w', i);
      RegistrationIsFirst(w, w', i);
    } else if p.Claimed? && p'.CacheMiss? {
      if c.run in w.db.profiles {
        PublishedIsCached(w.db, c.run);
      }
    } else if p.Claimed? && p'.CacheHit? {
      CachedCommonIsRegistered(w.db, c.run, p'.commonRef, p'.profileRef);
    }
  }

  /** The tables after a move: only a registration changes them, and it is the first of its run. */
  lemma MoveKeepsParents(profileId: nat -> string, w: World, w': World, i: nat)
    requires Inv(w) && OneRegistration(w) && Moves(profileId, w, w', i)
    ensures Published(w'.db) && KeepsParents(w.db, w'.db) && w.db.artifacts <= w'.db.artifacts
    ensures w'.db.dispatch == w.db.dispatch
    ensures forall run :: run in w'.db.profiles && run !in w.db.profiles ==>
              LastClaim(w.db, w.attempts[i].claim) && run == w.attempts[i].claim.run
  {
    MoveKeepsTables(profileId, w, w', i);
    hide Register, LineageValid, Published, RegisteredCommon, ContentAddressed, RowsStored, ProfilesLinked, Cached,
      AttemptOk;
    var (c, p) := (w.attempts[i].claim, w.attempts[i].phase);
    if Registers(w, w', i) {
      RegistrationIsFirst(w, w', i);
      RegisterAdds(w.db, c.run, c.token, c.source, CommonRef(c.run, p.common), ProfileRef(c.run, p.profile), p.profile);
    } else {
      assert w'.db == w.db;
    }
  }

  lemma MoveKeepsOneRegistration(profileId: nat -> string, w: World, w': World, i: nat)
    requires Inv(w) && OneRegistration(w) && Moves(profileId, w, w', i)
    ensures OneRegistration(w')
  {
    hide AttemptStep, Inv, Published, KeepsParents, CommonOk;
    MoveKeepsParents(profileId, w, w', i);
    CommonOkOfMover(profileId, w, w', i);
    forall j | 0 <= j < |w'.attempts| ensures CommonOk(w', w'.attempts[j]) {
      if j != i {
        assert CommonOk(w, w.attempts[j]);
        CommonOkStays(w, w', w.attempts[j]);
      }
    }
  }

  lemma NextKeepsOneRegistration(profileId: nat -> string, w: World, w': World)
    requires Inv(w) && OneRegistration(w) && Next(profileId, w, w')
    ensures OneRegistration(w')
  {
    hide Moves, Published, CommonOk, ContentAddressed, RowsStored, ProfilesLinked;
    if i: nat :| Moves(profileId, w, w', i) {
      MoveKeepsOneRegistration(profileId, w, w', i);
    } else {
      DispatchKeepsOneRegistration(w, w');
    }
  }

  lemma DispatchKeepsOneRegistration(w: World, w': World)
    requires Inv(w) && OneRegistration(w)
    requires (exists c: Claim :: Claims(w, w', c)) || exists run: nat :: Expires(w, w', run)
    ensures OneRegistration(w')
  {
    hide CommonOk, RegisteredCommon, ContentAddressed, RowsStored, ProfilesLinked;
    forall i | 0 <= i < |w.attempts| ensures CommonOk(w', w.attempts[i]) {
      assert AttemptOk(w, w.attempts[i]) && CommonOk(w, w.attempts[i]);
      CommonOkStays(w, w', w.attempts[i]);
    }
    forall i | |w.attempts| <= i < |w'.attempts| ensures CommonOk(w', w'.attempts[i]) {
      NewClaimIsOk(w', w'.attempts[i]);
    }
    assert Published(w'.db) by {
      forall run | run in w'.db.profiles ensures exists common: Document :: RegisteredCommon(w'.db, run, common) {
        var common: Document :| RegisteredCommon(w.db, run, common);
        CommonStays(w.db, w'.db, run, common);
      }
    }
  }

  lemma NewClaimIsOk(w: World, attempt: Attempt)
    requires attempt.phase == Claimed
    ensures CommonOk(w, attempt)
  {
  }

  // ---------------------------------------------------------------- whole runs

  /** Uploads only: nothing has been analysed yet. */
  ghost predicate Initial(w: World) {
    && ContentAddressed(w) && w.attempts == [] && w.db.profiles == map[] && w.db.lineage == {}
    && (forall pk :: 0 <= pk < |w.db.artifacts| ==> w.db.artifacts[pk].ref.kind == Source)
    && forall run :: run in w.db.dispatch ==> w.db.dispatch[run].token in w.issued
  }

  ghost predicate Run(profileId: nat -> string, trace: seq<World>) {
    && |trace| > 0 && Initial(trace[0])
    && forall k :: 0 < k < |trace| ==> Next(profileId, trace[k - 1], trace[k])
  }

  lemma {:induction false} RunKeepsInv(profileId: nat -> string, trace: seq<World>, k: nat)
    requires Run(profileId, trace) && k < |trace|
    ensures Inv(trace[k])
  {
    hide Next, ContentAddressed;
    if k > 0 {
      RunKeepsInv(profileId, trace, k - 1);
      NextKeepsInv(profileId, trace[k - 1], trace[k]);
    }
  }

  lemma {:induction false} RunKeepsOneRegistration(profileId: nat -> string, trace: seq<World>, k: nat)
    requires Run(profileId, trace) && k < |trace|
    ensures OneRegistration(trace[k])
  {
    hide Next, ContentAddressed;
    if k > 0 {
      RunKeepsInv(profileId, trace, k - 1);
      RunKeepsOneRegistration(profileId, trace, k - 1);
      hide *;
      NextKeepsOneRegistration(profileId, trace[k - 1], trace[k]);
    }
  }

  lemma {:induction false} RunExtends(profileId: nat -> string, trace: seq<World>, k: nat, l: nat)
    requires Run(profileId, trace) && k <= l < |trace|
    ensures Extends(trace[k], trace[l])
    decreases l
  {
    hide Next, Initial, Inv;
    if k < l {
      RunExtends(profileId, trace, k, l - 1);
      RunKeepsInv(profileId, trace, l - 1);
      NextKeepsInv(profileId, trace[l - 1], trace[l]);
    }
  }

  /** Over every run, whatever stale attempts do: each registered derived artifact row points at
      a stored object with that hash. */
  lemma RegisteredArtifactsAreStored(profileId: nat -> string, trace: seq<World>, k: nat, pk: nat)
    requires Run(profileId, trace) && k < |trace| && pk < |trace[k].db.artifacts|
    requires trace[k].db.artifacts[pk].ref.kind != Source
    ensures Loads(trace[k].storage, trace[k].db.artifacts[pk].ref, trace[k].db.artifacts[pk].ref.digest.content)
  {
    RunKeepsInv(profileId, trace, k);
  }

  /** Over every run: a run's registered structured profile is never replaced. */
  lemma RegisteredProfileNeverChanges(profileId: nat -> string, trace: seq<World>, k: nat, l: nat, run: nat,
                                      profile: Document)
    requires Run(profileId, trace) && k <= l < |trace| && Registered(trace[k].db, run, profile)
    ensures Registered(trace[l].db, run, profile)
    ensures trace[l].db.profiles[run] == trace[k].db.profiles[run]
  {
    RunExtends(profileId, trace, k, l);
  }

  lemma SameCommonIr(profileId: nat -> string, trace: seq<World>, k: nat, i: nat, l: nat, j: nat)
    requires Run(profileId, trace) && k <= l < |trace| && i < |trace[k].attempts| && j < |trace[l].attempts|
    requires trace[k].attempts[i].phase.Building? && trace[l].attempts[j].phase.Building?
    requires trace[k].attempts[i].claim.run == trace[l].attempts[j].claim.run
    ensures trace[k].attempts[i].phase.common == trace[l].attempts[j].phase.common
    ensures RegisteredCommon(trace[l].db, trace[l].attempts[j].claim.run, trace[l].attempts[j].phase.common)
  {
    hide Run, Published;
    RunKeepsOneRegistration(profileId, trace, k);
    RunKeepsOneRegistration(profileId, trace, l);
    var (a, b) := (trace[k].attempts[i], trace[l].attempts[j]);
    assert CommonOk(trace[k], a) && CommonOk(trace[l], b);
    RegisteredCommonNeverChanges(profileId, trace, k, l, a.claim.run, a.phase.common);
    OneCommonIr(trace[l].db, a.claim.run, a.phase.common, b.phase.common);
  }

  lemma OneCommonIr(db: Db, run: nat, common: Document, other: Document)
    requires RegisteredCommon(db, run, common) && RegisteredCommon(db, run, other)
    ensures common == other
  {
    var pk := db.profiles[run].structured.value;
    var parent: nat :| Parent(db, parent, pk);
    assert db.artifacts[parent].ref.digest == Sha256(common);
  }

  /** Over every run: an attempt that is about to register and holds the fence is the first of its
      run to do so. The check of an existing profile is a safeguard that never speaks. */
  lemma RegistrationFindsNoProfile(profileId: nat -> string, trace: seq<World>, k: nat, i: nat)
    requires Run(profileId, trace) && k < |trace| && i < |trace[k].attempts| && trace[k].attempts[i].phase.PutBoth?
    requires Fenced(trace[k].db, trace[k].attempts[i].claim.run, trace[k].attempts[i].claim.token)
    ensures trace[k].attempts[i].claim.run !in trace[k].db.profiles
  {
    RunKeepsOneRegistration(profileId, trace, k);
    hide Run, Published;
    assert CommonOk(trace[k], trace[k].attempts[i]);
  }

  /** Over every run, however many attempts there are: at most one registration of a run commits. */
  lemma RunsAreRegisteredOnce(profileId: nat -> string, trace: seq<World>, k: nat, i: nat, l: nat, j: nat)
    requires Run(profileId, trace) && k <= l < |trace| - 1
    requires Registers(trace[k], trace[k + 1], i) && Registers(trace[l], trace[l + 1], j)
    requires trace[k].attempts[i].claim.run == trace[l].attempts[j].claim.run
    ensures k == l && i == j
  {
    hide Next, Initial, OneRegistration, Inv;
    RegistrationIsNew(profileId, trace, k, i);
    RegistrationIsNew(profileId, trace, l, j);
    if k < l {
      RunExtends(profileId, trace, k + 1, l);
    } else {
      RunKeepsOneRegistration(profileId, trace, k);
      TokensDiffer(trace[k], i, j);
    }
  }

  lemma TokensDiffer(w: World, i: nat, j: nat)
    requires OneRegistration(w) && i < |w.attempts| && j < |w.attempts|
    ensures w.attempts[i].claim.token == w.attempts[j].claim.token ==> i == j
  {
  }

  lemma RegistrationIsNew(profileId: nat -> string, trace: seq<World>, k: nat, i: nat)
    requires Run(profileId, trace) && k < |trace| - 1 && Registers(trace[k], trace[k + 1], i)
    ensures var c := trace[k].attempts[i].claim;
            && Fenced(trace[k].db, c.run, c.token)
            && c.run !in trace[k].db.profiles && c.run in trace[k + 1].db.profiles
  {
    RunKeepsInv(profileId, trace, k);
    RunKeepsOneRegistration(profileId, trace, k);
    RegistrationIsFirst(trace[k], trace[k + 1], i);
  }

  /** Over every run: the Common IR a profile was registered with stays its only one. */
  lemma RegisteredCommonNeverChanges(profileId: nat -> string, trace: seq<World>, k: nat, l: nat, run: nat,
                                     common: Document)
    requires Run(profileId, trace) && k <= l < |trace| && RegisteredCommon(trace[k].db, run, common)
    ensures RegisteredCommon(trace[l].db, run, common)
    decreases l
  {
    hide Next, Initial, OneRegistration, Inv, RegisteredCommon;
    if k < l {
      RegisteredCommonNeverChanges(profileId, trace, k, l - 1, run, common);
      RunKeepsInv(profileId, trace, l - 1);
      RunKeepsOneRegistration(profileId, trace, l - 1);
      StepKeepsCommon(profileId, trace[l - 1], trace[l], run, common);
    }
  }

  lemma StepKeepsCommon(profileId: nat -> string, w: World, w': World, run: nat, common: Document)
    requires Inv(w) && OneRegistration(w) && Next(profileId, w, w') && RegisteredCommon(w.db, run, common)
    ensures RegisteredCommon(w'.db, run, common)
  {
    hide Moves, Inv, OneRegistration, RegisteredCommon;
    if i: nat :| Moves(profileId, w, w', i) {
      MoveKeepsParents(profileId, w, w', i);
    }
    CommonStays(w.db, w'.db, run, common);
  }

  /** Over every run: any two attempts of one run that reach build_payload, at whatever times,
      whether they produced or resumed them, build from the same profile and the same Common IR:
      the registered ones. */
  lemma EveryBuildUsesTheRegisteredProfile(profileId: nat -> string, trace: seq<World>, k: nat, i: nat, l: nat, j: nat)
    requires Run(profileId, trace) && k <= l < |trace| && i < |trace[k].attempts| && j < |trace[l].attempts|
    requires trace[k].attempts[i].phase.Building? && trace[l].attempts[j].phase.Building?
    requires trace[k].attempts[i].claim.run == trace[l].attempts[j].claim.run
    ensures trace[k].attempts[i].phase.profile == trace[l].attempts[j].phase.profile
    ensures trace[k].attempts[i].phase.common == trace[l].attempts[j].phase.common
    ensures Registered(trace[l].db, trace[l].attempts[j].claim.run, trace[l].attempts[j].phase.profile)
    ensures RegisteredCommon(trace[l].db, trace[l].attempts[j].claim.run, trace[l].attempts[j].phase.common)
  {
    hide Next;
    SameCommonIr(profileId, trace, k, i, l, j);
    RunKeepsInv(profileId, trace, k);
    RunKeepsInv(profileId, trace, l);
    assert AttemptOk(trace[k], trace[k].attempts[i]);
    assert AttemptOk(trace[l], trace[l].attempts[j]);
    RegisteredProfileNeverChanges(profileId, trace, k, l, trace[k].attempts[i].claim.run,
      trace[k].attempts[i].phase.profile);
  }

  /** What build_payload is given belongs to the claim: the run's own profile id, the supported
      schemas, one Common IR identity, and the hash of the claimed source on both documents. */
  ghost predicate OfTheClaim(profileId: nat -> string, c: Claim, common: Document, profile: Document) {
    && profile.id == profileId(c.run) && profile.schema == "pre_review_request_profile/v0.1"
    && common.schema == "common_ir_v1" && profile.commonIrId == common.id
    && common.sourceSha == c.sourceSha && profile.sourceSha == c.sourceSha
  }

  /** Over every run: whatever was produced, resumed or stored, an attempt that reaches
      build_payload has the documents of its claim ... */
  lemma {:induction false} BuildsAreOfTheClaim(profileId: nat -> string, trace: seq<World>, k: nat, i: nat)
    requires Run(profileId, trace) && k < |trace| && i < |trace[k].attempts| && trace[k].attempts[i].phase.Building?
    ensures var (c, p) := (trace[k].attempts[i].claim, trace[k].attempts[i].phase);
            OfTheClaim(profileId, c, p.common, p.profile)
  {
    hide ContentAddressed, Register, Cached, PutIfAbsent, OfTheClaim, LineageValid;
    if k > 0 {
      var (w, w') := (trace[k - 1], trace[k]);
      assert Next(profileId, w, w');
      if i < |w.attempts| && w.attempts[i] == w'.attempts[i] {
        BuildsAreOfTheClaim(profileId, trace, k - 1, i);
      } else {
        var p := w'.attempts[i].phase;
        CheckedFields(profileId, w'.attempts[i].claim, p.common, p.profile);
      }
    }
  }

  lemma CheckedFields(profileId: nat -> string, c: Claim, common: Document, profile: Document)
    ensures LineageValid(profileId(c.run), c.sourceSha, common, profile) <==> OfTheClaim(profileId, c, common, profile)
  {
  }

  /** ... and nothing more is asked of it: with these documents, and only with them, it goes on. */
  lemma GoesOnExactly(profileId: nat -> string, w: World, i: nat)
    requires i < |w.attempts| && w.attempts[i].phase.Obtained?
    ensures var (c, p) := (w.attempts[i].claim, w.attempts[i].phase);
            (exists w' :: Moves(profileId, w, w', i) && w'.attempts[i].phase == Building(p.common, p.profile))
            <==> OfTheClaim(profileId, c, p.common, p.profile)
  {
    hide OfTheClaim, LineageValid;
    var (c, p) := (w.attempts[i].claim, w.attempts[i].phase);
    CheckedFields(profileId, c, p.common, p.profile);
    if OfTheClaim(profileId, c, p.common, p.profile) {
      var w' := w.(attempts := w.attempts[i := Attempt(c, Building(p.common, p.profile))]);
      assert Moves(profileId, w, w', i);
    }
  }

  /** Once superseded, an attempt stays superseded, because tokens are never issued twice ... */
  lemma {:induction false} SupersededForever(profileId: nat -> string, trace: seq<World>, k: nat, l: nat, run: nat,
                                             token: nat)
    requires Run(profileId, trace) && k <= l < |trace| && token in trace[k].issued
    requires !Fenced(trace[k].db, run, token)
    ensures !Fenced(trace[l].db, run, token)
    decreases l
  {
    hide Inv, Initial, Extends, Next;
    if k < l {
      SupersededForever(profileId, trace, k, l - 1, run, token);
      RunKeepsInv(profileId, trace, l - 1);
      RunExtends(profileId, trace, k, l - 1);
      FenceStaysDown(profileId, trace[k], trace[l - 1], trace[l], run, token);
    }
  }

  /** ... and nothing it does from then on changes a database row. */
  lemma StaleAttemptsRegisterNothing(profileId: nat -> string, trace: seq<World>, k: nat, l: nat, i: nat)
    requires Run(profileId, trace) && k <= l < |trace| - 1 && Moves(profileId, trace[l], trace[l + 1], i)
    requires var c := trace[l].attempts[i].claim; c.token in trace[k].issued && !Fenced(trace[k].db, c.run, c.token)
    ensures trace[l + 1].db == trace[l].db
  {
    hide Next, Initial, Fenced, Cached, PutIfAbsent, LineageValid;
    SupersededForever(profileId, trace, k, l, trace[l].attempts[i].claim.run, trace[l].attempts[i].claim.token);
  }

  lemma FenceStaysDown(profileId: nat -> string, w0: World, w: World, w': World, run: nat, token: nat)
    requires Inv(w) && Next(profileId, w, w') && Extends(w0, w) && token in w0.issued && !Fenced(w.db, run, token)
    ensures !Fenced(w'.db, run, token)
  {
    hide Moves, ContentAddressed, RowsStored, ProfilesLinked, AttemptOk;
    if i: nat :| Moves(profileId, w, w', i) {
      MoveKeepsTables(profileId, w, w', i);
    }
  }
}

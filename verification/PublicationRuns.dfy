/** What an attempt that is left alone reaches from any point of any run: the first one publishes,
    a later one resumes what was published. */
module PublicationRuns {
  import opened Wrappers
  import opened ProfilePublication

  /** Moves of one attempt and nothing else. */
  ghost predicate Alone(profileId: nat -> string, path: seq<World>, i: nat, from: World, to: World) {
    && |path| > 0 && path[0] == from && path[|path| - 1] == to
    && forall k :: 0 < k < |path| ==> Moves(profileId, path[k - 1], path[k], i)
  }

  lemma Onwards(profileId: nat -> string, path: seq<World>, i: nat, from: World, via: World, to: World)
    returns (more: seq<World>)
    requires Alone(profileId, path, i, from, via) && Moves(profileId, via, to, i)
    ensures Alone(profileId, more, i, from, to)
  {
    hide Moves;
    more := path + [to];
  }

  /** The world with other tables and objects, attempt i at another phase. */
  function Moved(w: World, i: nat, db: Db, storage: map<ObjectKey, Document>, p: Phase): (w': World)
    requires i < |w.attempts|
  {
    w.(db := db, storage := storage, attempts := w.attempts[i := w.attempts[i].(phase := p)])
  }

  lemma MovesTo(profileId: nat -> string, w: World, i: nat, db: Db, storage: map<ObjectKey, Document>, p: Phase)
    requires i < |w.attempts|
    requires AttemptStep(profileId, w, Moved(w, i, db, storage, p), w.attempts[i].claim, w.attempts[i].phase, p)
    ensures Moves(profileId, w, Moved(w, i, db, storage, p), i)
  {
    hide AttemptStep;
  }

  /** Source artifacts lie where their uploads put them, apart from the keys of derived ones. */
  ghost predicate SourcesAreUploads(db: Db) {
    forall pk :: 0 <= pk < |db.artifacts| && db.artifacts[pk].ref.kind == Source ==> db.artifacts[pk].ref.key.Upload?
  }

  /** The claim's processing run holds the live lease and its source artifact is registered. */
  ghost predicate MayRegister(db: Db, c: Claim) {
    c.run in db.dispatch && db.dispatch[c.run] == Dispatch(c.token, true) && HasSource(db, c)
  }

  /** The source artifact is there, and it is the run's. */
  ghost predicate HasSource(db: Db, c: Claim) {
    && (exists pk :: 0 <= pk < |db.artifacts| && db.artifacts[pk].ref.key == c.source)
    && forall pk :: 0 <= pk < |db.artifacts| && db.artifacts[pk].ref.key == c.source ==>
         db.artifacts[pk].run == c.run && db.artifacts[pk].ref.kind == Source
  }

  /** A run without a profile has no derived rows, so nothing can conflict with its first. */
  lemma FirstRegistrationSucceeds(w: World, c: Claim, common: Document, profile: Document) 
    returns (sourcePk: nat, db': Db)
    requires Inv(w) && Published(w.db) && c.run !in w.db.profiles && MayRegister(w.db, c) && SourcesAreUploads(w.db)
    ensures Register(w.db, c.run, c.token, c.source, CommonRef(c.run, common), ProfileRef(c.run, profile), profile)
            == Ok(db')
    ensures AddsRun(w.db, db', c.run, common, profile, sourcePk) && w.db.artifacts[sourcePk].ref.key == c.source
    ensures db'.dispatch == w.db.dispatch
  {
    var (one, two) := (CommonRef(c.run, common), ProfileRef(c.run, profile));
    NoDerivedRows(w, c.run);
    assert !HasKey(w.db.artifacts, one.key) && !HasKey(w.db.artifacts, two.key);
    var db1 := w.db.(artifacts := w.db.artifacts + [ArtifactRow(c.run, one)]);
    assert InsertArtifact(w.db, c.run, one) == Ok((db1, |w.db.artifacts|));
    assert !HasKey(db1.artifacts, two.key);
    hide InsertArtifact, Lookup;
    InsertsNew(db1, c.run, two);
    sourcePk := SourceFound(w.db, c);
    db' := Register(w.db, c.run, c.token, c.source, one, two, profile).value;
    assert w.db.artifacts + [ArtifactRow(c.run, one)] + [ArtifactRow(c.run, two)]
        == w.db.artifacts + [ArtifactRow(c.run, one), ArtifactRow(c.run, two)];
  }

  lemma InsertsNew(db: Db, run: nat, ref: ArtifactRef)
    requires !HasKey(db.artifacts, ref.key)
    ensures InsertArtifact(db, run, ref)
            == Ok((db.(artifacts := db.artifacts + [ArtifactRow(run, ref)]), |db.artifacts|))
  {
  }

  lemma SourceFound(db: Db, c: Claim) returns (sourcePk: nat)
    requires MayRegister(db, c)
    ensures Lookup(db.artifacts, c.source) == Some(sourcePk) && sourcePk < |db.artifacts|
    ensures db.artifacts[sourcePk].ref.key == c.source
    ensures db.artifacts[sourcePk].run == c.run && db.artifacts[sourcePk].ref.kind == Source
  {
    hide Lookup;
    assert HasKey(db.artifacts, c.source);
    sourcePk := Lookup(db.artifacts, c.source).value;
  }

  lemma NoDerivedRows(w: World, run: nat)
    requires Inv(w) && Published(w.db) && run !in w.db.profiles && SourcesAreUploads(w.db)
    ensures forall key: ObjectKey :: key.Derived? && key.run == run ==> !HasKey(w.db.artifacts, key)
  {
  }

  /** The two objects are there, and every other one as before. */
  ghost predicate Stored(before: map<ObjectKey, Document>, after: map<ObjectKey, Document>, run: nat, common: Document,
                         profile: Document)
  {
    var (one, two) := (Derived(run, CommonIr, Sha256(common)), Derived(run, StructuredProfile, Sha256(profile)));
    && one in after && after[one] == common && two in after && after[two] == profile
    && forall key :: key != one && key != two ==>
         (key in after <==> key in before) && (key in after ==> after[key] == before[key])
  }

  lemma PutsBoth(w: World, run: nat, common: Document, profile: Document)
    requires ContentAddressed(w)
    ensures var one := PutIfAbsent(w.storage, CommonRef(run, common).key, common);
            var two := PutIfAbsent(one, ProfileRef(run, profile).key, profile);
            Stored(w.storage, two, run, common, profile)
  {
  }

  /** From any point of any run: an attempt that holds the live lease of a run without a profile can
      go through with whatever documents its parser and converter produce, as long as they are of
      its claim. It then has two new rows with the edges between source, Common IR and profile, the
      run's profile row, and both objects, and has changed nothing else. */
  lemma FirstAttemptPublishes(profileId: nat -> string, trace: seq<World>, k: nat, i: nat, common: Document,
                              profile: Document)
    returns (path: seq<World>, sourcePk: nat, w': World)
    requires Run(profileId, trace) && k < |trace| && i < |trace[k].attempts| && trace[k].attempts[i].phase == Claimed
    requires var (w, c) := (trace[k], trace[k].attempts[i].claim);
             && c.run !in w.db.profiles && MayRegister(w.db, c) && SourcesAreUploads(w.db)
             && OfTheClaim(profileId, c, common, profile)
    ensures Alone(profileId, path, i, trace[k], w')
    ensures i < |w'.attempts| && w'.attempts[i].phase == Building(common, profile)
    ensures var (w, c) := (trace[k], trace[k].attempts[i].claim);
            && AddsRun(w.db, w'.db, c.run, common, profile, sourcePk) && w.db.artifacts[sourcePk].ref.key == c.source
            && w'.db.dispatch == w.db.dispatch && Stored(w.storage, w'.storage, c.run, common, profile)
  {
    RunKeepsInv(profileId, trace, k);
    RunKeepsOneRegistration(profileId, trace, k);
    var (w, c) := (trace[k], trace[k].attempts[i].claim);
    var db': Db;
    sourcePk, db' := FirstRegistrationSucceeds(w, c, common, profile);
    PutsBoth(w, c.run, common, profile);
    var one := PutIfAbsent(w.storage, CommonRef(c.run, common).key, common);
    var two := PutIfAbsent(one, ProfileRef(c.run, profile).key, profile);
    w' := Moved(w, i, db', two, Building(common, profile));
    hide *;
    path := PublishingPath(profileId, w, i, common, profile, db');
  }

  /** A claim under a new token can always be made; the new attempt has the lease, no earlier one of
      the run has it any more, and nothing else has changed. */
  lemma ClaimsTakeTheLease(w: World, c: Claim) returns (w': World)
    requires Inv(w) && c.token !in w.issued
    ensures Claims(w, w', c) && w'.attempts == w.attempts + [Attempt(c, Claimed)] && w'.storage == w.storage
    ensures w'.db == w.db.(dispatch := w'.db.dispatch) && c.run in w'.db.dispatch
    ensures w'.db.dispatch[c.run] == Dispatch(c.token, true)
    ensures forall i :: 0 <= i < |w.attempts| && w.attempts[i].claim.run == c.run ==>
              w'.db.dispatch[c.run].token != w.attempts[i].claim.token
    ensures forall run :: run != c.run ==>
              (run in w'.db.dispatch <==> run in w.db.dispatch)
              && (run in w.db.dispatch ==> w'.db.dispatch[run] == w.db.dispatch[run])
  {
    w' := w.(db := w.db.(dispatch := w.db.dispatch[c.run := Dispatch(c.token, true)]),
             attempts := w.attempts + [Attempt(c, Claimed)], issued := w.issued + {c.token});
    assert Claims(w, w', c);
    forall i | 0 <= i < |w.attempts| ensures w.attempts[i].claim.token != c.token {
      assert AttemptOk(w, w.attempts[i]);
    }
  }

  lemma OnlyThisClaim(w: World, w': World, other: World, c: Claim)
    requires Claims(w, w', c) && Claims(w, other, c)
    ensures w' == other
  {
  }

  /** So whatever happened to a run so far: as long as it has no profile, one more claim is enough. */
  lemma OneMoreClaimPublishes(profileId: nat -> string, trace: seq<World>, c: Claim, common: Document,
                              profile: Document, w1: World)
    returns (path: seq<World>, w2: World)
    requires Run(profileId, trace) && Claims(trace[|trace| - 1], w1, c)
    requires var w := trace[|trace| - 1];
             && c.run !in w.db.profiles && HasSource(w.db, c) && SourcesAreUploads(w.db)
             && OfTheClaim(profileId, c, common, profile)
    ensures Alone(profileId, path, |trace[|trace| - 1].attempts|, w1, w2)
    ensures w2.attempts == trace[|trace| - 1].attempts + [Attempt(c, Building(common, profile))]
  {
    var w := trace[|trace| - 1];
    RunKeepsInv(profileId, trace, |trace| - 1);
    var other := ClaimsTakeTheLease(w, c);
    OnlyThisClaim(w, w1, other, c);
    assert Next(profileId, w, w1);
    var more := trace + [w1];
    assert Run(profileId, more);
    assert HasSource(w1.db, c) && SourcesAreUploads(w1.db);
    var sourcePk: nat;
    hide Inv, Run, Claims, OfTheClaim, SourcesAreUploads, HasSource, Moves;
    path, sourcePk, w2 := FirstAttemptPublishes(profileId, more, |trace|, |w.attempts|, common, profile);
    OthersStay(profileId, path, |w.attempts|, w1, w2);
  }

  lemma {:induction false} OthersStay(profileId: nat -> string, path: seq<World>, i: nat, from: World, to: World)
    requires Alone(profileId, path, i, from, to) && i < |from.attempts|
    ensures |to.attempts| == |from.attempts| && to.attempts[i].claim == from.attempts[i].claim
    ensures forall j :: 0 <= j < |from.attempts| && j != i ==> to.attempts[j] == from.attempts[j]
    decreases |path|
  {
    hide AttemptStep;
    if |path| > 1 {
      OthersStay(profileId, path[..|path| - 1], i, from, path[|path| - 2]);
      assert Moves(profileId, path[|path| - 1 - 1], path[|path| - 1], i);
    }
  }

  lemma PublishingPath(profileId: nat -> string, w: World, i: nat, common: Document, profile: Document, db': Db)
    returns (path: seq<World>)
    requires i < |w.attempts| && w.attempts[i].phase == Claimed
    requires var c := w.attempts[i].claim;
             && c.run !in w.db.profiles && OfTheClaim(profileId, c, common, profile)
             && Register(w.db, c.run, c.token, c.source, CommonRef(c.run, common), ProfileRef(c.run, profile), profile)
                == Ok(db')
    ensures var c := w.attempts[i].claim;
            var one := PutIfAbsent(w.storage, CommonRef(c.run, common).key, common);
            var two := PutIfAbsent(one, ProfileRef(c.run, profile).key, profile);
            Alone(profileId, path, i, w, Moved(w, i, db', two, Building(common, profile)))
  {
    hide Register, PutIfAbsent, Moves, Alone, OfTheClaim, LineageValid;
    var c := w.attempts[i].claim;
    var one := PutIfAbsent(w.storage, CommonRef(c.run, common).key, common);
    var two := PutIfAbsent(one, ProfileRef(c.run, profile).key, profile);
    var put := Moved(w, i, w.db, two, PutBoth(common, profile));
    var obtained, building := Moved(w, i, db', two, Obtained(common, profile)),
                              Moved(w, i, db', two, Building(common, profile));
    path := PuttingPath(profileId, w, i, common, profile);
    assert obtained == Moved(put, i, db', two, Obtained(common, profile));
    MovesTo(profileId, put, i, db', two, Obtained(common, profile));
    path := Onwards(profileId, path, i, w, put, obtained);
    CheckedFields(profileId, c, common, profile);
    assert building == Moved(obtained, i, db', two, Building(common, profile));
    MovesTo(profileId, obtained, i, db', two, Building(common, profile));
    path := Onwards(profileId, path, i, w, obtained, building);
  }

  lemma PuttingPath(profileId: nat -> string, w: World, i: nat, common: Document, profile: Document)
    returns (path: seq<World>)
    requires i < |w.attempts| && w.attempts[i].phase == Claimed
    requires w.attempts[i].claim.run !in w.db.profiles && OfTheClaim(profileId, w.attempts[i].claim, common, profile)
    ensures var run := w.attempts[i].claim.run;
            var one := PutIfAbsent(w.storage, CommonRef(run, common).key, common);
            var two := PutIfAbsent(one, ProfileRef(run, profile).key, profile);
            Alone(profileId, path, i, w, Moved(w, i, w.db, two, PutBoth(common, profile)))
  {
    hide PutIfAbsent, Moves;
    var run := w.attempts[i].claim.run;
    var one := PutIfAbsent(w.storage, CommonRef(run, common).key, common);
    var two := PutIfAbsent(one, ProfileRef(run, profile).key, profile);
    var w1 := Moved(w, i, w.db, w.storage, CacheMiss);
    var w2 := Moved(w, i, w.db, w.storage, Produced(common, profile));
    var w3 := Moved(w, i, w.db, one, PutCommon(common, profile));
    var w4 := Moved(w, i, w.db, two, PutBoth(common, profile));
    MovesTo(profileId, w, i, w.db, w.storage, CacheMiss);
    assert w2 == Moved(w1, i, w.db, w.storage, Produced(common, profile));
    MovesTo(profileId, w1, i, w.db, w.storage, Produced(common, profile));
    assert w3 == Moved(w2, i, w.db, one, PutCommon(common, profile));
    MovesTo(profileId, w2, i, w.db, one, PutCommon(common, profile));
    assert w4 == Moved(w3, i, w.db, two, PutBoth(common, profile));
    MovesTo(profileId, w3, i, w.db, two, PutBoth(common, profile));
    path := [w, w1, w2, w3, w4];
  }

  /** From any point of any run: an attempt at a run that has its profile cannot miss it, and can go
      through with the registered documents, reading only. */
  lemma LaterAttemptResumes(profileId: nat -> string, trace: seq<World>, k: nat, i: nat, common: Document,
                            profile: Document)
    returns (path: seq<World>)
    requires Run(profileId, trace) && k < |trace| && i < |trace[k].attempts| && trace[k].attempts[i].phase == Claimed
    requires var (db, run) := (trace[k].db, trace[k].attempts[i].claim.run);
             Registered(db, run, profile) && RegisteredCommon(db, run, common)
    ensures var w := trace[k]; Alone(profileId, path, i, w, Moved(w, i, w.db, w.storage, Obtained(common, profile)))
    ensures forall w' :: Moves(profileId, trace[k], w', i) ==>
              w'.attempts[i].phase.CacheHit? || w'.attempts[i].phase.Stopped?
  {
    RunKeepsInv(profileId, trace, k);
    RunKeepsOneRegistration(profileId, trace, k);
    var (w, run) := (trace[k], trace[k].attempts[i].claim.run);
    PublishedIsCached(w.db, run);
    hide Run, Inv, OneRegistration, Published, Registered, RegisteredCommon;
    var profileRef := CachedAndStored(w, run, common, profile);
    hide Cached, Loads, Moves;
    path := ResumingPath(profileId, w, i, common, profile, profileRef);
    forall w' | Moves(profileId, w, w', i) ensures w'.attempts[i].phase.CacheHit? || w'.attempts[i].phase.Stopped? {
      FirstMove(profileId, w, w', i);
    }
  }

  lemma FirstMove(profileId: nat -> string, w: World, w': World, i: nat)
    requires Moves(profileId, w, w', i) && w.attempts[i].phase == Claimed
    requires exists commonRef: ArtifactRef, profileRef: ArtifactRef ::
               Cached(w.db, w.attempts[i].claim.run, commonRef, profileRef)
    ensures w'.attempts[i].phase.CacheHit? || w'.attempts[i].phase.Stopped?
  {
    hide Cached;
  }

  lemma CachedAndStored(w: World, run: nat, common: Document, profile: Document) returns (profileRef: ArtifactRef)
    requires Inv(w) && Registered(w.db, run, profile) && RegisteredCommon(w.db, run, common)
    ensures Cached(w.db, run, CommonRef(run, common), profileRef)
    ensures Loads(w.storage, CommonRef(run, common), common) && Loads(w.storage, profileRef, profile)
  {
    var pk := w.db.profiles[run].structured.value;
    profileRef := w.db.artifacts[pk].ref;
    var parent: nat :| Parent(w.db, parent, pk);
    assert w.db.artifacts[parent].ref == CommonRef(run, common);
  }

  lemma ResumingPath(profileId: nat -> string, w: World, i: nat, common: Document, profile: Document,
                     profileRef: ArtifactRef)
    returns (path: seq<World>)
    requires i < |w.attempts| && w.attempts[i].phase == Claimed
    requires var run := w.attempts[i].claim.run;
             && Cached(w.db, run, CommonRef(run, common), profileRef)
             && Loads(w.storage, CommonRef(run, common), common) && Loads(w.storage, profileRef, profile)
    ensures Alone(profileId, path, i, w, Moved(w, i, w.db, w.storage, Obtained(common, profile)))
  {
    hide Cached, Loads, Moves;
    var ref := CommonRef(w.attempts[i].claim.run, common);
    var w1 := Moved(w, i, w.db, w.storage, CacheHit(ref, profileRef));
    var w2 := Moved(w, i, w.db, w.storage, LoadedCommon(common, profileRef));
    var w3 := Moved(w, i, w.db, w.storage, Obtained(common, profile));
    MovesTo(profileId, w, i, w.db, w.storage, CacheHit(ref, profileRef));
    assert w2 == Moved(w1, i, w.db, w.storage, LoadedCommon(common, profileRef));
    MovesTo(profileId, w1, i, w.db, w.storage, LoadedCommon(common, profileRef));
    assert w3 == Moved(w2, i, w.db, w.storage, Obtained(common, profile));
    MovesTo(profileId, w2, i, w.db, w.storage, Obtained(common, profile));
    path := [w, w1, w2, w3];
  }

  // ---------------------------------------------------------------- one registration, exactly

  ghost predicate KeysAreUnique(db: Db) {
    forall i, j :: 0 <= i < j < |db.artifacts| ==> db.artifacts[i].ref.key != db.artifacts[j].ref.key
  }

  /** Whatever row has the key of the artifact, is the artifact of this run. */
  ghost predicate NoConflict(db: Db, run: nat, ref: ArtifactRef) {
    forall pk :: 0 <= pk < |db.artifacts| && db.artifacts[pk].ref.key == ref.key ==>
       db.artifacts[pk] == ArtifactRow(run, ref)
  }

  ghost predicate SourceIsRegistered(db: Db, run: nat, source: ObjectKey) {
    exists pk :: 0 <= pk < |db.artifacts| && db.artifacts[pk].ref.key == source
      && db.artifacts[pk].run == run && db.artifacts[pk].ref.kind == Source
  }

  /** A profile of the run has this id, this schema and this structured artifact's digest. */
  ghost predicate SameProfile(db: Db, run: nat, structured: ArtifactRef, profile: Document) {
    run in db.profiles ==>
      var row := db.profiles[run];
      && row.profileId == profile.id && row.schema == profile.schema && row.structured.Some?
      && row.structured.value < |db.artifacts| && db.artifacts[row.structured.value].ref.digest == structured.digest
  }

  /** A registration commits exactly when the processing run holds its live lease, the source is the
      run's, neither key is taken by another artifact, and a profile that is there is the same one. */
  lemma RegistersExactly(db: Db, run: nat, token: nat, source: ObjectKey, common: ArtifactRef, structured: ArtifactRef,
                         profile: Document)
    requires KeysAreUnique(db) && ProfilesLinked(db) && common.key != structured.key
    ensures Register(db, run, token, source, common, structured, profile).Ok? <==>
              && run in db.dispatch && db.dispatch[run] == Dispatch(token, true)
              && SourceIsRegistered(db, run, source) && NoConflict(db, run, common) && NoConflict(db, run, structured)
              && SameProfile(db, run, structured, profile)
  {
    hide Lookup, InsertArtifact, NoConflict, SourceIsRegistered, KeysAreUnique, ProfilesLinked, SameProfile, Link;
    SourceExactly(db, run, source);
    InsertsExactly(db, run, common);
    var sourcePk := Lookup(db.artifacts, source);
    var r := InsertArtifact(db, run, common);
    if r.Ok? && sourcePk.Some? {
      var (db1, commonPk) := r.value;
      InsertsExactly(db1, run, structured);
      SameConflicts(db, db1, run, common, structured);
      var s := InsertArtifact(db1, run, structured);
      if s.Ok? {
        var (db2, profilePk) := s.value;
        LinksExactly(db, db2.(lineage := db2.lineage + {(sourcePk.value, commonPk), (commonPk, profilePk)}), run,
                     profilePk, structured, profile);
      }
    }
  }

  lemma LinksExactly(db: Db, db': Db, run: nat, profilePk: nat, structured: ArtifactRef, profile: Document)
    requires ProfilesLinked(db) && db.artifacts <= db'.artifacts && db'.profiles == db.profiles
    ensures Link(db', run, profilePk, structured, profile).Ok? <==> SameProfile(db, run, structured, profile)
  {
  }

  lemma SourceExactly(db: Db, run: nat, source: ObjectKey)
    requires KeysAreUnique(db)
    ensures var pk := Lookup(db.artifacts, source);
            SourceIsRegistered(db, run, source)
            <==> pk.Some? && db.artifacts[pk.value].run == run && db.artifacts[pk.value].ref.kind == Source
  {
    hide Lookup;
  }

  lemma InsertsExactly(db: Db, run: nat, ref: ArtifactRef)
    requires KeysAreUnique(db)
    ensures InsertArtifact(db, run, ref).Ok? <==> NoConflict(db, run, ref)
    ensures InsertArtifact(db, run, ref).Ok? ==>
              var db' := InsertArtifact(db, run, ref).value.0;
              KeysAreUnique(db') && (db' == db || db' == db.(artifacts := db.artifacts + [ArtifactRow(run, ref)]))
  {
    hide Lookup;
  }

  lemma SameConflicts(db: Db, db': Db, run: nat, one: ArtifactRef, two: ArtifactRef)
    requires one.key != two.key
    requires db' == db || db' == db.(artifacts := db.artifacts + [ArtifactRow(run, one)])
    ensures NoConflict(db, run, two) <==> NoConflict(db', run, two)
  {
    assert forall pk :: 0 <= pk < |db.artifacts| ==> db'.artifacts[pk] == db.artifacts[pk];
  }
}

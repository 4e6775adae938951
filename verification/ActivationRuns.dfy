/** What one process reaches when nothing runs between its statements: an import, a full embedding
    backfill and a Model 1 backfill, each from its start to its commit. */
module ActivationRuns {
  import opened Wrappers
  import opened KbLedger
  import opened EmbeddingActivation
  import opened ActivationProtocol

  /** The tables as they are, and where the process is. */
  datatype Point = Point(store: Store, phase: Phase)

  ghost predicate Goes(a: InputHashers, p: Point, q: Point) {
    && Sound(p.store.kb)
    && (ImporterStep(p.store, p.phase, q.store, q.phase) || EmbedderStep(a, p.store, p.phase, q.store, q.phase)
        || ClassifierStep(a, p.store, p.phase, q.store, q.phase))
  }

  ghost predicate Alone(a: InputHashers, run: seq<Point>, from: Point, to: Point) {
    && |run| > 0 && run[0] == from && run[|run| - 1] == to
    && forall k :: 0 < k < |run| ==> Goes(a, run[k - 1], run[k])
  }

  lemma Onwards(a: InputHashers, run: seq<Point>, from: Point, via: Point, to: Point) returns (more: seq<Point>)
    requires Alone(a, run, from, via) && Goes(a, via, to)
    ensures Alone(a, more, from, to)
  {
    more := run + [to];
  }

  lemma Together(a: InputHashers, r: seq<Point>, s: seq<Point>, from: Point, via: Point, to: Point)
    returns (both: seq<Point>)
    requires Alone(a, r, from, via) && Alone(a, s, via, to)
    ensures Alone(a, both, from, to)
  {
    hide Goes;
    both := r + s[1..];
    forall k | 0 < k < |both| ensures Goes(a, both[k - 1], both[k]) {
      if k >= |r| {
        assert both[k] == s[k - |r| + 1] && both[k - 1] == s[k - |r|];
      }
    }
  }

  // ---------------------------------------------------------------- the full embedding backfill

  /** The file holds the bytes of this current profile version of the same source profile. */
  ghost predicate IsFileOf(kb: Kb, file: LocalFile, pk: nat)
    requires KeysResolve(kb)
  {
    && pk < |kb.profileVersions| && kb.profileVersions[pk].isCurrent
    && kb.sourceVersions[kb.profileVersions[pk].sourceVersion].isCurrent
    && kb.profileVersions[pk].profileSha == file.profileSha
    && kb.sourceProfiles[kb.sourceVersions[kb.profileVersions[pk].sourceVersion].sourceProfile].sourceProfileId
       == file.sourceProfileId
  }

  ghost predicate OnlyFileOf(kb: Kb, file: LocalFile, pk: nat)
    requires KeysResolve(kb)
  {
    IsFileOf(kb, file, pk) && forall other: nat :: IsFileOf(kb, file, other) ==> other == pk
  }

  ghost predicate HasProfile(kb: Kb, file: LocalFile)
    requires KeysResolve(kb)
  {
    exists pk: nat :: OnlyFileOf(kb, file, pk)
  }

  /** The local pack is the current set: each file is that of one current profile, and each current
      profile has its file. */
  ghost predicate PackIsCurrent(kb: Kb, files: seq<LocalFile>)
    requires KeysResolve(kb)
  {
    && (forall i :: 0 <= i < |files| ==> HasProfile(kb, files[i]))
    && (forall pk :: pk in Current(kb) ==> exists i :: 0 <= i < |files| && IsFileOf(kb, files[i], pk))
  }

  lemma OneMatch(kb: Kb, file: LocalFile, pk: nat)
    requires KeysResolve(kb)
    ensures Matching(kb, file) == {pk} <==> OnlyFileOf(kb, file, pk)
  {
    assert forall other: nat :: other in Matching(kb, file) <==> IsFileOf(kb, file, other);
    if Matching(kb, file) == {pk} {
      assert pk in Matching(kb, file);
    }
  }

  /** A scope is embedded exactly if it was asked for and its stored hash is missing or different. */
  lemma {:induction false} PendingExactly(a: InputHashers, pk: nat, profileSha: string, target: nat,
                                          existing: Embeddings, scopes: seq<Scope>, row: PendingRow)
    ensures row in PendingFor(a, pk, profileSha, target, existing, scopes) <==>
              && row.profileVersion == pk && row.scope in scopes
              && row.inputSha == a.embeddingInput(profileSha, row.scope)
              && !((pk, target, row.scope) in existing && existing[(pk, target, row.scope)] == row.inputSha)
  {
    if scopes != [] {
      PendingExactly(a, pk, profileSha, target, existing, scopes[..|scopes| - 1], row);
      assert scopes == scopes[..|scopes| - 1] + [scopes[|scopes| - 1]];
    }
  }

  /** What the hash of a scope of a stored profile version is computed from. */
  function InputOf(a: InputHashers, kb: Kb, pk: nat, scope: Scope): (sha: string)
    requires pk < |kb.profileVersions|
  {
    a.embeddingInput(kb.profileVersions[pk].profileSha, scope)
  }

  /** The files seen so far, and what was noted for them: the expected hashes, and the scopes that
      are missing or stale. */
  ghost predicate Noted(a: InputHashers, kb: Kb, target: nat, existing: Embeddings, seen: seq<LocalFile>,
                        expected: Expected, pending: seq<PendingRow>)
    requires KeysResolve(kb)
  {
    && (forall pk: nat, scope: Scope :: (pk, scope) in expected <==>
          exists i :: 0 <= i < |seen| && OnlyFileOf(kb, seen[i], pk))
    && (forall pk, scope: Scope :: (pk, scope) in expected ==>
          pk < |kb.profileVersions| && expected[(pk, scope)] == InputOf(a, kb, pk, scope))
    && (forall row :: row in pending <==>
          && (row.profileVersion, row.scope) in expected && row.inputSha == expected[(row.profileVersion, row.scope)]
          && !((row.profileVersion, target, row.scope) in existing
               && existing[(row.profileVersion, target, row.scope)] == row.inputSha))
  }

  lemma NoteFile(a: InputHashers, kb: Kb, target: nat, existing: Embeddings, seen: seq<LocalFile>, expected: Expected,
                 pending: seq<PendingRow>, file: LocalFile, pk: nat, ordered: seq<Scope>)
    requires KeysResolve(kb) && Noted(a, kb, target, existing, seen, expected, pending) && OnlyFileOf(kb, file, pk)
    requires forall scope: Scope :: scope in ordered
    ensures Noted(a, kb, target, existing, seen + [file], expected + ExpectedFor(a, pk, file.profileSha),
                  pending + PendingFor(a, pk, file.profileSha, target, existing, ordered))
  {
    var expected' := expected + ExpectedFor(a, pk, file.profileSha);
    var rows := PendingFor(a, pk, file.profileSha, target, existing, ordered);
    forall row ensures row in rows <==>
        && row.profileVersion == pk && row.inputSha == InputOf(a, kb, pk, row.scope)
        && !((pk, target, row.scope) in existing && existing[(pk, target, row.scope)] == row.inputSha)
    {
      PendingExactly(a, pk, file.profileSha, target, existing, ordered, row);
    }
    forall other: nat, scope: Scope
      ensures (other, scope) in expected' <==> (other, scope) in expected || other == pk
      ensures (other, scope) in expected' ==>
                other < |kb.profileVersions| && expected'[(other, scope)] == InputOf(a, kb, other, scope)
    {
      assert scope.Purpose? || scope.Target? || scope.Support? || scope.Combined?;
    }
    hide PendingFor, ExpectedFor, OnlyFileOf, InputOf;
    forall other: nat, scope: Scope
      ensures (other, scope) in expected' <==>
                exists i :: 0 <= i < |seen + [file]| && OnlyFileOf(kb, (seen + [file])[i], other)
    {
      SeenAlso(kb, seen, file, pk, other);
    }
  }

  lemma SeenAlso(kb: Kb, seen: seq<LocalFile>, file: LocalFile, pk: nat, other: nat)
    requires KeysResolve(kb) && OnlyFileOf(kb, file, pk)
    ensures (exists i :: 0 <= i < |seen + [file]| && OnlyFileOf(kb, (seen + [file])[i], other)) <==>
              other == pk || exists i :: 0 <= i < |seen| && OnlyFileOf(kb, seen[i], other)
  {
    var both := seen + [file];
    assert both[|seen|] == file;
    assert OnlyFileOf(kb, file, other) ==> other == pk;
    forall i | 0 <= i < |seen| ensures both[i] == seen[i] {
    }
    hide OnlyFileOf;
    if i :| 0 <= i < |seen| && OnlyFileOf(kb, seen[i], other) {
      assert OnlyFileOf(kb, both[i], other);
    }
  }

  const ALL_FOUR: seq<Scope> := [Purpose, Target, Support, Combined]

  ghost predicate Loading(p: Point, st: Store, files: seq<LocalFile>, target: nat, expected: Expected,
                          pending: seq<PendingRow>)
  {
    p == Point(st, EmbedLoading(files, {Purpose, Target, Support, Combined}, true, target, st.embeddings, expected,
                     pending))
  }

  /** Reading the files one after the other, up to the upsert. */
  lemma {:induction false} LoadsAll(a: InputHashers, st: Store, target: nat, seen: seq<LocalFile>,
                                    files: seq<LocalFile>,
                                    expected: Expected, pending: seq<PendingRow>, from: Point)
    returns (run: seq<Point>, expected': Expected, pending': seq<PendingRow>, to: Point)
    requires Sound(st.kb) && KeysResolve(st.kb) && Loading(from, st, files, target, expected, pending)
    requires Noted(a, st.kb, target, st.embeddings, seen, expected, pending)
    requires forall i :: 0 <= i < |files| ==> HasProfile(st.kb, files[i])
    ensures Noted(a, st.kb, target, st.embeddings, seen + files, expected', pending')
    ensures Loading(to, st, [], target, expected', pending') && Alone(a, run, from, to)
    decreases files
  {
    hide Sound, Noted, OnlyFileOf, Goes;
    if files == [] {
      run, expected', pending', to := [from], expected, pending, from;
      assert seen + files == seen;
    } else {
      assert HasProfile(st.kb, files[0]);
      var pk: nat :| OnlyFileOf(st.kb, files[0], pk);
      var via := LoadsOne(a, st, target, seen, files, expected, pending, from, pk);
      var mine := expected + ExpectedFor(a, pk, files[0].profileSha);
      var rows := pending + PendingFor(a, pk, files[0].profileSha, target, st.embeddings, ALL_FOUR);
      assert forall i :: 0 <= i < |files[1..]| ==> files[1..][i] == files[i + 1];
      run, expected', pending', to := LoadsAll(a, st, target, seen + [files[0]], files[1..], mine, rows, via);
      run := Together(a, [from, via], run, from, via, to);
      assert seen + [files[0]] + files[1..] == seen + files;
    }
  }

  lemma LoadsOne(a: InputHashers, st: Store, target: nat, seen: seq<LocalFile>, files: seq<LocalFile>,
                 expected: Expected, pending: seq<PendingRow>, from: Point, pk: nat)
    returns (to: Point)
    requires Sound(st.kb) && KeysResolve(st.kb) && Loading(from, st, files, target, expected, pending) && files != []
    requires Noted(a, st.kb, target, st.embeddings, seen, expected, pending) && OnlyFileOf(st.kb, files[0], pk)
    ensures var mine := expected + ExpectedFor(a, pk, files[0].profileSha);
            var rows := pending + PendingFor(a, pk, files[0].profileSha, target, st.embeddings, ALL_FOUR);
            && Loading(to, st, files[1..], target, mine, rows) && Goes(a, from, to)
            && Noted(a, st.kb, target, st.embeddings, seen + [files[0]], mine, rows)
  {
    hide Sound, Noted, OnlyFileOf, Matching, PendingFor, ExpectedFor;
    var mine := expected + ExpectedFor(a, pk, files[0].profileSha);
    var rows := pending + PendingFor(a, pk, files[0].profileSha, target, st.embeddings, ALL_FOUR);
    to := Point(st, EmbedLoading(files[1..], {Purpose, Target, Support, Combined}, true, target, st.embeddings, mine,
                      rows));
    OneMatch(st.kb, files[0], pk);
    forall scope: Scope ensures scope in ALL_FOUR && scope in {Purpose, Target, Support, Combined} {
      assert scope.Purpose? || scope.Target? || scope.Support? || scope.Combined?;
      assert ALL_FOUR[0] == Purpose && ALL_FOUR[1] == Target && ALL_FOUR[2] == Support && ALL_FOUR[3] == Combined;
    }
    NoteFile(a, st.kb, target, st.embeddings, seen, expected, pending, files[0], pk, ALL_FOUR);
    assert EmbedderStep(a, st, from.phase, st, to.phase);
  }

  lemma {:induction false} WrittenByARow(embeddings: Embeddings, config: nat, rows: seq<PendingRow>, row: PendingRow)
    requires row in rows
    ensures var key := (row.profileVersion, config, row.scope);
            && key in Upserted(embeddings, config, rows)
            && exists i :: 0 <= i < |rows| && rows[i].profileVersion == row.profileVersion && rows[i].scope == row.scope
                 && Upserted(embeddings, config, rows)[key] == rows[i].inputSha
  {
    var (front, last) := (rows[..|rows| - 1], rows[|rows| - 1]);
    assert rows == front + [last];
    if row in front {
      WrittenByARow(embeddings, config, front, row);
    }
  }

  /** After the upsert every noted profile has its four rows, and nothing else has changed. */
  lemma UpsertCompletes(a: InputHashers, st: Store, target: nat, files: seq<LocalFile>, expected: Expected,
                        pending: seq<PendingRow>)
    requires KeysResolve(st.kb) && Noted(a, st.kb, target, st.embeddings, files, expected, pending)
    ensures var after := Upserted(st.embeddings, target, pending);
            && (forall pk: nat, scope: Scope :: (pk, scope) in expected ==>
                  (pk, target, scope) in after && after[(pk, target, scope)] == expected[(pk, scope)])
            && (forall key: (nat, nat, Scope) :: key.1 != target || (key.0, key.2) !in expected ==>
                  (key in after <==> key in st.embeddings)
                  && (key in after ==> after[key] == st.embeddings[key]))
  {
    var after := Upserted(st.embeddings, target, pending);
    hide Upserted, KeysResolve, OnlyFileOf;
    forall key: (nat, nat, Scope)
      ensures key.1 == target && (key.0, key.2) in expected ==> key in after && after[key] == expected[(key.0, key.2)]
      ensures key.1 != target || (key.0, key.2) !in expected ==>
                (key in after <==> key in st.embeddings) && (key in after ==> after[key] == st.embeddings[key])
    {
      UpsertedKeys(st.embeddings, target, pending, key);
      forall i | 0 <= i < |pending| && key == (pending[i].profileVersion, target, pending[i].scope)
        ensures (key.0, key.2) in expected && pending[i].inputSha == expected[(key.0, key.2)]
      {
        assert pending[i] in pending;
      }
      if key.1 == target && (key.0, key.2) in expected {
        var row := PendingRow(key.0, key.2, expected[(key.0, key.2)]);
        if row in pending {
          WrittenByARow(st.embeddings, target, pending, row);
        }
      }
    }
    forall pk: nat, scope: Scope | (pk, scope) in expected
      ensures (pk, target, scope) in after && after[(pk, target, scope)] == expected[(pk, scope)]
    {
      var key := (pk, target, scope);
      assert key.1 == target && (key.0, key.2) in expected;
    }
  }

  /** The noted profiles of a pack that is current are the current profiles. */
  lemma PackCovers(a: InputHashers, kb: Kb, target: nat, existing: Embeddings, files: seq<LocalFile>,
                   expected: Expected, pending: seq<PendingRow>)
    requires KeysResolve(kb) && PackIsCurrent(kb, files) && Noted(a, kb, target, existing, files, expected, pending)
    ensures forall pk: nat, scope: Scope :: (pk, scope) in expected <==> pk in Current(kb)
    ensures (set key | key in expected :: key.0) == Current(kb)
  {
    forall pk: nat, scope: Scope ensures (pk, scope) in expected <==> pk in Current(kb) {
      if pk in Current(kb) {
        var i :| 0 <= i < |files| && IsFileOf(kb, files[i], pk);
        assert HasProfile(kb, files[i]);
        var only: nat :| OnlyFileOf(kb, files[i], only);
        assert OnlyFileOf(kb, files[i], pk);
      }
    }
    forall pk: nat ensures pk in (set key | key in expected :: key.0) <==> pk in Current(kb) {
      if pk in Current(kb) {
        assert (pk, Purpose) in expected;
      }
      if key :| key in expected && key.0 == pk {
        assert (key.0, key.1) in expected;
      }
    }
  }

  lemma PathIsAlone(a: InputHashers, st: Store, target: nat, expected: Expected, path: seq<Phase>, st': Store)
    returns (run: seq<Point>)
    requires Sound(st.kb) && PromotionPath(a, st, target, expected, path, st')
    ensures Alone(a, run, Point(st, PromoteWants(target, expected)), Point(st', Finished))
  {
    hide Sound, EmbedderStep, ImporterStep, ClassifierStep;
    run := [Point(st, path[0]), Point(st, path[1]), Point(st, path[2]), Point(st, path[3]), Point(st, path[4]),
            Point(st, path[5]), Point(st', path[6])];
    forall k | 0 < k < |run| ensures Goes(a, run[k - 1], run[k]) {
      if k < 6 {
        assert run[k - 1] == Point(st, path[k - 1]) && run[k] == Point(st, path[k]);
        assert EmbedderStep(a, st, path[k - 1], st, path[k - 1 + 1]);
      }
    }
  }

  /** From the start of a full backfill to what it asks of the promotion. */
  lemma BackfillReachesThePromotion(a: InputHashers, st: Store, files: seq<LocalFile>, target: nat)
    returns (run: seq<Point>, expected: Expected, embeddings: Embeddings)
    requires Sound(st.kb) && KeysResolve(st.kb) && OnlyRow(st.configs, V2, target) && PackIsCurrent(st.kb, files)
    ensures Alone(a, run, Point(st, EmbedStart(files, {Purpose, Target, Support, Combined}, true)),
                  Point(st.(embeddings := embeddings), PromoteWants(target, expected)))
    ensures forall pk: nat, scope: Scope :: (pk, scope) in expected <==> pk in Current(st.kb)
    ensures forall pk: nat, scope: Scope :: pk in Current(st.kb) ==>
              && (pk, target, scope) in embeddings && embeddings[(pk, target, scope)] == InputOf(a, st.kb, pk, scope)
              && expected[(pk, scope)] == InputOf(a, st.kb, pk, scope)
    ensures forall key: (nat, nat, Scope) :: key.1 != target || key.0 !in Current(st.kb) ==>
              (key in embeddings <==> key in st.embeddings)
              && (key in embeddings ==> embeddings[key] == st.embeddings[key])
  {
    hide Sound, OnlyRow, Current, Upserted;
    OneRowExactly(st.configs, V2, target);
    var start := Point(st, EmbedStart(files, {Purpose, Target, Support, Combined}, true));
    var begun := Point(st, EmbedLoading(files, {Purpose, Target, Support, Combined}, true, target, st.embeddings, map[],
                           []));
    assert Goes(a, start, begun);
    hide Goes, Noted;
    NothingNoted(a, st.kb, target, st.embeddings);
    var pending: seq<PendingRow>, loaded: Point;
    run, expected, pending, loaded := LoadsAll(a, st, target, [], files, map[], [], begun);
    assert [] + files == files;
    run := Together(a, [start, begun], run, start, begun, loaded);
    UpsertCompletes(a, st, target, files, expected, pending);
    PackCovers(a, st.kb, target, st.embeddings, files, expected, pending);
    embeddings := Upserted(st.embeddings, target, pending);
    NotedHashes(a, st.kb, target, st.embeddings, files, expected, pending);
    hide *;
    run := UpsertAndAsk(a, run, start, loaded, st, target, expected, pending);
  }

  lemma NothingNoted(a: InputHashers, kb: Kb, target: nat, existing: Embeddings)
    requires KeysResolve(kb)
    ensures Noted(a, kb, target, existing, [], map[], [])
  {
  }

  lemma NotedHashes(a: InputHashers, kb: Kb, target: nat, existing: Embeddings, files: seq<LocalFile>,
                    expected: Expected, pending: seq<PendingRow>)
    requires KeysResolve(kb) && Noted(a, kb, target, existing, files, expected, pending)
    ensures forall pk: nat, scope: Scope :: (pk, scope) in expected ==>
              pk < |kb.profileVersions| && expected[(pk, scope)] == InputOf(a, kb, pk, scope)
  {
  }

  lemma UpsertAndAsk(a: InputHashers, run: seq<Point>, start: Point, loaded: Point, st: Store, target: nat,
                     expected: Expected, pending: seq<PendingRow>)
    returns (more: seq<Point>)
    requires Sound(st.kb) && KeysResolve(st.kb) && Alone(a, run, start, loaded)
    requires Loading(loaded, st, [], target, expected, pending)
    requires (set key | key in expected :: key.0) == Current(st.kb)
    ensures Alone(a, more, start, Point(st.(embeddings := Upserted(st.embeddings, target, pending)),
                                      PromoteWants(target, expected)))
  {
    hide Sound, Upserted, Current, Alone;
    var after := st.(embeddings := Upserted(st.embeddings, target, pending));
    var (written, asks) := (Point(after, EmbedUpserted(true, target, expected)),
                            Point(after, PromoteWants(target, expected)));
    assert Goes(a, loaded, written);
    assert Goes(a, written, asks);
    hide Goes;
    more := Onwards(a, run, start, loaded, written);
    more := Onwards(a, more, start, written, asks);
  }

  /** A full backfill over a local pack that is the current set, with one v1 row and the target the
      only v2 row, goes through to its promotion: every current profile then has its four rows with
      the hashes of its own inputs, v2 alone is active, and nothing else has changed. */
  lemma FullBackfillActivatesV2(a: InputHashers, st: Store, files: seq<LocalFile>, target: nat)
    returns (run: seq<Point>, st': Store)
    requires Sound(st.kb) && KeysResolve(st.kb) && OnlyV1AndTarget(st.configs, target) && PackIsCurrent(st.kb, files)
    ensures Alone(a, run, Point(st, EmbedStart(files, {Purpose, Target, Support, Combined}, true)),
                  Point(st', Finished))
    ensures st' == st.(configs := st'.configs, embeddings := st'.embeddings) && |st'.configs| == |st.configs|
    ensures forall c :: 0 <= c < |st.configs| ==> st'.configs[c] == Config(st.configs[c].assembly, c == target)
    ensures forall pk: nat, scope: Scope :: pk in Current(st.kb) ==>
              (pk, target, scope) in st'.embeddings
              && st'.embeddings[(pk, target, scope)] == InputOf(a, st.kb, pk, scope)
    ensures forall key: (nat, nat, Scope) :: key.1 != target || key.0 !in Current(st.kb) ==>
              (key in st'.embeddings <==> key in st.embeddings)
              && (key in st'.embeddings ==> st'.embeddings[key] == st.embeddings[key])
  {
    hide Sound, Current, Alone, OnlyRow, Activate, PromotionPath, PackIsCurrent, KeysResolve;
    var expected: Expected, embeddings: Embeddings;
    run, expected, embeddings := BackfillReachesThePromotion(a, st, files, target);
    var written := st.(embeddings := embeddings);
    ActivatesExactly(st.configs, embeddings, Current(st.kb), target, expected);
    var r := Activate(st.configs, embeddings, Current(st.kb), target, expected);
    st' := written.(configs := r.value);
    UninterruptedPromotion(a, written, target, expected, st');
    var path :| PromotionPath(a, written, target, expected, path, st');
    var promotion := PathIsAlone(a, written, target, expected, path, st');
    run := Together(a, run, promotion, Point(st, EmbedStart(files, {Purpose, Target, Support, Combined}, true)),
                    Point(written, PromoteWants(target, expected)), Point(st', Finished));
  }

  // ---------------------------------------------------------------- only full backfills promote

  /** Whether the backfill a process is in was asked for in full. */
  function InFull(p: Phase): (full: Option<bool>) {
    match p
    case EmbedStart(_, _, full) => Some(full)
    case EmbedLoading(_, _, full, _, _, _, _) => Some(full)
    case EmbedUpserted(full, _, _) => Some(full)
    case _ => if Promotes(p) then Some(true) else None
  }

  lemma StepKeepsFull(a: InputHashers, st: Store, p: Phase, st': Store, p': Phase)
    requires Sound(st.kb) && LocalStep(a, st, p, st', p') && InFull(p').Some?
    ensures InFull(p) == InFull(p')
  {
    hide Sound, ImporterStep, EmbedderStep, ClassifierStep, InFull;
    OthersNeverEmbed(a, st, p, st', p');
    if EmbedderStep(a, st, p, st', p') {
      EmbedderKeepsFull(a, st, p, st', p');
    }
  }

  lemma OthersNeverEmbed(a: InputHashers, st: Store, p: Phase, st': Store, p': Phase)
    requires Sound(st.kb) && InFull(p').Some?
    ensures !ImporterStep(st, p, st', p') && !ClassifierStep(a, st, p, st', p') && !Abort(st, st', p')
  {
    hide Sound, Ingest, DemotedV2, CurrentInputs, EveryCurrentClassified, ImporterStep, ClassifierStep;
    if ImporterStep(st, p, st', p') {
      ImporterNeverEmbeds(st, p, st', p');
    }
    if ClassifierStep(a, st, p, st', p') {
      ClassifierNeverEmbeds(a, st, p, st', p');
    }
  }

  lemma ImporterNeverEmbeds(st: Store, p: Phase, st': Store, p': Phase)
    requires Sound(st.kb) && ImporterStep(st, p, st', p')
    ensures InFull(p').None?
  {
    hide Sound, Ingest, DemotedV2;
  }

  lemma ClassifierNeverEmbeds(a: InputHashers, st: Store, p: Phase, st': Store, p': Phase)
    requires Sound(st.kb) && ClassifierStep(a, st, p, st', p')
    ensures InFull(p').None?
  {
    hide Sound, CurrentInputs, EveryCurrentClassified;
  }

  lemma EmbedderKeepsFull(a: InputHashers, st: Store, p: Phase, st': Store, p': Phase)
    requires Sound(st.kb) && EmbedderStep(a, st, p, st', p') && InFull(p').Some?
    ensures InFull(p) == InFull(p')
  {
    hide Sound, Matching, CheckConfigs, Promoted, Upserted, CoversExactly, HashesMatch, Current, ExpectedFor,
         PendingFor, RowsOf;
  }

  /** Over every run: who is promoting v2 was started as a full backfill; a part of the profiles or
      scopes is never promoted. */
  lemma {:induction false} OnlyFullBackfillsPromote(a: InputHashers, trace: seq<System>, k: nat, i: nat)
    requires Run(a, trace) && k < |trace| && i < |trace[k].procs| && InFull(trace[k].procs[i]).Some?
    ensures i < |trace[0].procs| && trace[0].procs[i].EmbedStart?
    ensures InFull(trace[k].procs[i]) == Some(trace[0].procs[i].full)
    ensures Promotes(trace[k].procs[i]) ==> trace[0].procs[i].full
  {
    hide Sound, StoreOk, LocalStep, Holds;
    if k > 0 {
      assert SomeStep(a, trace[k - 1], trace[k]);
      var mover: nat :| Step(a, trace[k - 1], trace[k], mover);
      if mover == i {
        StepKeepsFull(a, trace[k - 1].store, trace[k - 1].procs[i], trace[k].store, trace[k].procs[i]);
      }
      OnlyFullBackfillsPromote(a, trace, k - 1, i);
    }
  }

  // ---------------------------------------------------------------- an import

  /** What follows each statement of an import. */
  ghost predicate ImportGoesOn(st: Store, p: Phase, st': Store, p': Phase) {
    match p
    case ImportStart(record) => st' == st && p' == ImportHasFirstLock(record)
    case ImportHasFirstLock(record) => st' == st && p' == ImportHasBothLocks(record)
    case ImportHasBothLocks(record) =>
      Sound(st.kb) && Ingest(st.kb, record).Ok? && st' == st
      && p' == ImportWrote(record, Ingest(st.kb, record).value.0, Ingest(st.kb, record).value.1)
    case ImportWrote(record, kb, outcome) =>
      if outcome.Ingested? then st' == st && p' == ImportDemoted(record, kb, outcome, DemotedV2(st.configs))
      else st' == st.(kb := kb) && p' == Finished
    case ImportDemoted(_, kb, _, configs) => st' == st.(kb := kb, configs := configs) && p' == Finished
    case _ => false
  }

  predicate Imports(p: Phase) {
    p.ImportStart? || p.ImportHasFirstLock? || p.ImportHasBothLocks? || p.ImportWrote? || p.ImportDemoted?
  }

  lemma ImportStep(a: InputHashers, p: Point, q: Point)
    requires Sound(p.store.kb) && Imports(p.phase)
    ensures Goes(a, p, q) <==> ImportGoesOn(p.store, p.phase, q.store, q.phase)
  {
    hide Sound, Ingest, DemotedV2;
  }

  /** A run that is not over has a first step, and the rest is a run. */
  lemma FirstStep(a: InputHashers, run: seq<Point>, from: Point, to: Point) returns (next: Point, rest: seq<Point>)
    requires Alone(a, run, from, to) && from != to
    ensures Goes(a, from, next) && Alone(a, rest, next, to) && |rest| < |run|
  {
    hide Goes;
    next, rest := run[1], run[1..];
    forall k | 0 < k < |rest| ensures Goes(a, rest[k - 1], rest[k]) {
      assert rest[k - 1] == run[k] && rest[k] == run[k + 1];
    }
  }

  lemma Over(a: InputHashers, run: seq<Point>, from: Point, to: Point)
    requires Alone(a, run, from, to) && from.phase == Finished
    ensures from == to
  {
    hide Goes;
    if |run| > 1 {
      FinishedStops(a, run[0], run[1]);
    }
  }

  lemma FinishedStops(a: InputHashers, p: Point, q: Point)
    requires p.phase == Finished
    ensures !Goes(a, p, q)
  {
  }

  /** An active v2 is switched off and every v1 row on; without one nothing changes. */
  ghost predicate DemotedExactly(configs: seq<Config>, after: seq<Config>) {
    && |after| == |configs|
    && forall c :: 0 <= c < |configs| ==>
         after[c] == if (exists v :: 0 <= v < |configs| && configs[v] == Config(V2, true))
           && !configs[c].assembly.Other?
                     then Config(configs[c].assembly, configs[c].assembly.V1?) else configs[c]
  }

  lemma DemotesExactly(configs: seq<Config>, after: seq<Config>)
    ensures after == DemotedV2(configs) <==> DemotedExactly(configs, after)
  {
    var active := RowsOf(configs, V2) * Active(configs);
    assert forall v :: v in active <==> 0 <= v < |configs| && configs[v] == Config(V2, true);
    if v :| 0 <= v < |configs| && configs[v] == Config(V2, true) {
      assert v in active;
    } else {
      assert active == {};
    }
  }

  /** What an import on its own commits: the ingest, with the demotion exactly if it was new. */
  ghost predicate ImportCommits(st: Store, record: Record, st': Store)
    requires Sound(st.kb)
  {
    var r := Ingest(st.kb, record);
    && r.Ok? && st' == st.(kb := r.value.0, configs := st'.configs)
    && if r.value.1.Ingested? then DemotedExactly(st.configs, st'.configs) else st'.configs == st.configs
  }

  lemma ImportCommitsExactly(a: InputHashers, st: Store, record: Record, st': Store)
    requires Sound(st.kb)
    ensures (exists run :: Alone(a, run, Point(st, ImportStart(record)), Point(st', Finished)))
            <==> ImportCommits(st, record, st')
  {
    hide Alone, ImportCommits, Sound;
    if run :| Alone(a, run, Point(st, ImportStart(record)), Point(st', Finished)) {
      ImportRunCommits(a, run, st, record, st');
    }
    if ImportCommits(st, record, st') {
      var run := ImportRun(a, st, record, st');
    }
  }

  lemma ImportRunCommits(a: InputHashers, run: seq<Point>, st: Store, record: Record, st': Store)
    requires Sound(st.kb) && Alone(a, run, Point(st, ImportStart(record)), Point(st', Finished))
    ensures ImportCommits(st, record, st')
  {
    hide Alone, Goes, Sound, Ingest, DemotedV2, DemotedExactly;
    var end := Point(st', Finished);
    var p1, r1 := FirstStep(a, run, Point(st, ImportStart(record)), end);
    ImportStep(a, Point(st, ImportStart(record)), p1);
    var p2, r2 := FirstStep(a, r1, p1, end);
    ImportStep(a, p1, p2);
    var p3, r3 := FirstStep(a, r2, p2, end);
    ImportStep(a, p2, p3);
    var p4, r4 := FirstStep(a, r3, p3, end);
    ImportStep(a, p3, p4);
    if p4.phase == Finished {
      Over(a, r4, p4, end);
    } else {
      var p5, r5 := FirstStep(a, r4, p4, end);
      ImportStep(a, p4, p5);
      Over(a, r5, p5, end);
      DemotesExactly(st.configs, st'.configs);
    }
  }

  lemma ImportRun(a: InputHashers, st: Store, record: Record, st': Store) returns (run: seq<Point>)
    requires Sound(st.kb) && ImportCommits(st, record, st')
    ensures Alone(a, run, Point(st, ImportStart(record)), Point(st', Finished))
  {
    hide Goes, Sound, Ingest, DemotedV2, DemotedExactly, Alone;
    var (kb, outcome) := (Ingest(st.kb, record).value.0, Ingest(st.kb, record).value.1);
    var start := Point(st, ImportStart(record));
    var first, both := Point(st, ImportHasFirstLock(record)), Point(st, ImportHasBothLocks(record));
    var wrote := Point(st, ImportWrote(record, kb, outcome));
    ImportStep(a, start, first);
    ImportStep(a, first, both);
    ImportStep(a, both, wrote);
    run := Beginning(a, start);
    run := Onwards(a, run, start, start, first);
    run := Onwards(a, run, start, first, both);
    run := Onwards(a, run, start, both, wrote);
    var end := Point(st', Finished);
    if outcome.Ingested? {
      DemotesExactly(st.configs, st'.configs);
      var demoted := Point(st, ImportDemoted(record, kb, outcome, st'.configs));
      ImportStep(a, wrote, demoted);
      ImportStep(a, demoted, end);
      run := Onwards(a, run, start, wrote, demoted);
      run := Onwards(a, run, start, demoted, end);
    } else {
      ImportStep(a, wrote, end);
      run := Onwards(a, run, start, wrote, end);
    }
  }

  lemma Beginning(a: InputHashers, from: Point) returns (run: seq<Point>)
    ensures Alone(a, run, from, from)
  {
    run := [from];
  }

  // ---------------------------------------------------------------- a Model 1 backfill

  /** What Model 1 is given for a profile: its notice's metadata and its own bytes. */
  ghost function InputFor(a: InputHashers, kb: Kb, pk: nat): (sha: string)
    requires KeysResolve(kb) && pk < |kb.profileVersions|
  {
    a.model1Input(kb.notices[kb.sourceProfiles[kb.sourceVersions[kb.profileVersions[pk].sourceVersion].sourceProfile]
                             .notice].metadata,
                  kb.profileVersions[pk].profileSha)
  }

  /** The inputs of exactly the current profiles. */
  ghost predicate CurrentCorpus(a: InputHashers, kb: Kb, inputs: map<nat, string>)
    requires KeysResolve(kb)
  {
    && (forall pk: nat :: pk in inputs <==> pk in Current(kb))
    && (forall pk: nat :: pk in inputs && pk < |kb.profileVersions| ==> inputs[pk] == InputFor(a, kb, pk))
  }

  lemma CorpusExactly(a: InputHashers, kb: Kb, inputs: map<nat, string>)
    requires KeysResolve(kb)
    ensures inputs == CurrentInputs(a, kb) <==> CurrentCorpus(a, kb, inputs)
  {
  }

  predicate HasOkRow(st: Store, config: nat, inputs: map<nat, string>, pk: nat)
    requires pk in inputs
  {
    (pk, config) in st.classified && st.classified[(pk, config)] == Classified(inputs[pk], true)
  }

  ghost predicate PromotesModelOne(a: InputHashers, st: Store, config: nat, inputs: map<nat, string>, st': Store)
    requires KeysResolve(st.kb)
  {
    && CurrentCorpus(a, st.kb, inputs) && (forall pk :: pk in inputs ==> HasOkRow(st, config, inputs, pk))
    && st' == st.(activeClassification := Some(config))
  }

  /** With no profile left to predict, the backfill commits exactly when the corpus is still the one
      it worked on and every profile of it has its OK row. */
  lemma ModelOneCommitsExactly(a: InputHashers, st: Store, config: nat, inputs: map<nat, string>, st': Store)
    requires Sound(st.kb) && KeysResolve(st.kb)
    ensures (exists run :: Alone(a, run, Point(st, Classifying(config, inputs, {})), Point(st', Finished)))
            <==> PromotesModelOne(a, st, config, inputs, st')
  {
    hide Alone, PromotesModelOne, Sound, KeysResolve;
    if run :| Alone(a, run, Point(st, Classifying(config, inputs, {})), Point(st', Finished)) {
      ModelOneRunCommits(a, run, st, config, inputs, st');
    }
    if PromotesModelOne(a, st, config, inputs, st') {
      var run := ModelOneRun(a, st, config, inputs, st');
    }
  }

  ghost predicate ModelOneGoesOn(a: InputHashers, st: Store, p: Phase, st': Store, p': Phase) {
    match p
    case Classifying(config, inputs, todo) => todo == {} && st' == st && p' == ClassifyHasLock(config, inputs)
    case ClassifyHasLock(config, inputs) => st' == st && p' == ClassifyHasRow(config, inputs)
    case ClassifyHasRow(config, inputs) =>
      Sound(st.kb) && CurrentInputs(a, st.kb) == inputs && st' == st && p' == ClassifyCorpusChecked(config, inputs)
    case ClassifyCorpusChecked(config, inputs) =>
      Sound(st.kb) && EveryCurrentClassified(st, config, inputs) && st' == st && p' == ClassifyVerified(config, inputs)
    case ClassifyVerified(config, _) => st' == st.(activeClassification := Some(config)) && p' == Finished
    case _ => false
  }

  predicate PromotesOne(p: Phase) {
    || (p.Classifying? && p.todo == {}) || p.ClassifyHasLock? || p.ClassifyHasRow? || p.ClassifyCorpusChecked?
    || p.ClassifyVerified?
  }

  lemma ModelOneStep(a: InputHashers, p: Point, q: Point)
    requires Sound(p.store.kb) && PromotesOne(p.phase)
    ensures Goes(a, p, q) <==> ModelOneGoesOn(a, p.store, p.phase, q.store, q.phase)
  {
    hide Sound, CurrentInputs, EveryCurrentClassified;
  }

  lemma RowsExactly(a: InputHashers, st: Store, config: nat, inputs: map<nat, string>)
    requires Sound(st.kb) && KeysResolve(st.kb) && CurrentCorpus(a, st.kb, inputs)
    ensures EveryCurrentClassified(st, config, inputs)
            <==> forall pk :: pk in inputs ==> HasOkRow(st, config, inputs, pk)
  {
    hide Sound, Current;
  }

  lemma ModelOneRunCommits(a: InputHashers, run: seq<Point>, st: Store, config: nat, inputs: map<nat, string>,
                           st': Store)
    requires Sound(st.kb) && KeysResolve(st.kb)
    requires Alone(a, run, Point(st, Classifying(config, inputs, {})), Point(st', Finished))
    ensures PromotesModelOne(a, st, config, inputs, st')
  {
    hide Alone, Goes, Sound, KeysResolve, CurrentInputs, EveryCurrentClassified, CurrentCorpus, HasOkRow;
    var start, end := Point(st, Classifying(config, inputs, {})), Point(st', Finished);
    var p1, r1 := FirstStep(a, run, start, end);
    ModelOneStep(a, start, p1);
    var p2, r2 := FirstStep(a, r1, p1, end);
    ModelOneStep(a, p1, p2);
    var p3, r3 := FirstStep(a, r2, p2, end);
    ModelOneStep(a, p2, p3);
    var p4, r4 := FirstStep(a, r3, p3, end);
    ModelOneStep(a, p3, p4);
    var p5, r5 := FirstStep(a, r4, p4, end);
    ModelOneStep(a, p4, p5);
    Over(a, r5, p5, end);
    CorpusExactly(a, st.kb, inputs);
    RowsExactly(a, st, config, inputs);
  }

  lemma ModelOneRun(a: InputHashers, st: Store, config: nat, inputs: map<nat, string>, st': Store)
    returns (run: seq<Point>)
    requires Sound(st.kb) && KeysResolve(st.kb) && PromotesModelOne(a, st, config, inputs, st')
    ensures Alone(a, run, Point(st, Classifying(config, inputs, {})), Point(st', Finished))
  {
    CorpusExactly(a, st.kb, inputs);
    RowsExactly(a, st, config, inputs);
    hide Alone, Goes, Sound, KeysResolve, CurrentInputs, EveryCurrentClassified, CurrentCorpus, HasOkRow;
    var start, end := Point(st, Classifying(config, inputs, {})), Point(st', Finished);
    var p1, p2 := Point(st, ClassifyHasLock(config, inputs)), Point(st, ClassifyHasRow(config, inputs));
    var p3, p4 := Point(st, ClassifyCorpusChecked(config, inputs)), Point(st, ClassifyVerified(config, inputs));
    LocksAndChecks(a, st, config, inputs);
    VerifiesAndCommits(a, st, config, inputs);
    run := FiveSteps(a, start, p1, p2, p3, p4, end);
  }

  lemma LocksAndChecks(a: InputHashers, st: Store, config: nat, inputs: map<nat, string>)
    requires Sound(st.kb) && CurrentInputs(a, st.kb) == inputs
    ensures Goes(a, Point(st, Classifying(config, inputs, {})), Point(st, ClassifyHasLock(config, inputs)))
    ensures Goes(a, Point(st, ClassifyHasLock(config, inputs)), Point(st, ClassifyHasRow(config, inputs)))
    ensures Goes(a, Point(st, ClassifyHasRow(config, inputs)), Point(st, ClassifyCorpusChecked(config, inputs)))
  {
    hide Goes, Sound, CurrentInputs;
    ModelOneStep(a, Point(st, Classifying(config, inputs, {})), Point(st, ClassifyHasLock(config, inputs)));
    ModelOneStep(a, Point(st, ClassifyHasLock(config, inputs)), Point(st, ClassifyHasRow(config, inputs)));
    ModelOneStep(a, Point(st, ClassifyHasRow(config, inputs)), Point(st, ClassifyCorpusChecked(config, inputs)));
  }

  lemma VerifiesAndCommits(a: InputHashers, st: Store, config: nat, inputs: map<nat, string>)
    requires Sound(st.kb) && EveryCurrentClassified(st, config, inputs)
    ensures Goes(a, Point(st, ClassifyCorpusChecked(config, inputs)), Point(st, ClassifyVerified(config, inputs)))
    ensures Goes(a, Point(st, ClassifyVerified(config, inputs)),
                 Point(st.(activeClassification := Some(config)), Finished))
  {
    hide Goes, Sound, EveryCurrentClassified;
    var verified := Point(st, ClassifyVerified(config, inputs));
    ModelOneStep(a, Point(st, ClassifyCorpusChecked(config, inputs)), verified);
    ModelOneStep(a, verified, Point(st.(activeClassification := Some(config)), Finished));
  }

  lemma FiveSteps(a: InputHashers, p0: Point, p1: Point, p2: Point, p3: Point, p4: Point, p5: Point)
    returns (run: seq<Point>)
    requires Goes(a, p0, p1) && Goes(a, p1, p2) && Goes(a, p2, p3) && Goes(a, p3, p4) && Goes(a, p4, p5)
    ensures Alone(a, run, p0, p5)
  {
    hide Goes, Alone;
    run := Beginning(a, p0);
    run := Onwards(a, run, p0, p0, p1);
    run := Onwards(a, run, p0, p1, p2);
    run := Onwards(a, run, p0, p2, p3);
    run := Onwards(a, run, p0, p3, p4);
    run := Onwards(a, run, p0, p4, p5);
  }

  /** The rows of what was to be done are OK, and no other row is touched. */
  ghost predicate Filled(st: Store, config: nat, inputs: map<nat, string>, todo: set<nat>, after: Store) {
    && after == st.(classified := after.classified)
    && (forall pk :: pk in todo && pk in inputs ==> HasOkRow(after, config, inputs, pk))
    && (forall key: (nat, nat) :: !(key.1 == config && key.0 in todo) ==>
          (key in after.classified <==> key in st.classified)
          && (key in after.classified ==> after.classified[key] == st.classified[key]))
  }

  lemma NothingToFill(st: Store, config: nat, inputs: map<nat, string>)
    ensures Filled(st, config, inputs, {}, st)
  {
  }

  /** One profile: skipped where its OK row stands, predicted otherwise. */
  lemma PredictsOne(a: InputHashers, st: Store, config: nat, inputs: map<nat, string>, todo: set<nat>, pk: nat)
    returns (run: seq<Point>, after: Store)
    requires Sound(st.kb) && pk in todo && pk in inputs
    ensures Alone(a, run, Point(st, Classifying(config, inputs, todo)),
              Point(after, Classifying(config, inputs, todo - {pk})))
    ensures Filled(st, config, inputs, {pk}, after)
  {
    hide Sound;
    var start := Point(st, Classifying(config, inputs, todo));
    run := Beginning(a, start);
    if HasOkRow(st, config, inputs, pk) {
      after := st;
      var end := Point(after, Classifying(config, inputs, todo - {pk}));
      LooksUp(a, start, end, pk);
      run := Onwards(a, run, start, start, end);
    } else {
      after := st.(classified := st.classified[(pk, config) := Classified(inputs[pk], true)]);
      var end := Point(after, Classifying(config, inputs, todo - {pk}));
      var asks := Point(st, ClassifyPredicting(config, inputs, todo, pk));
      LooksUp(a, start, asks, pk);
      Predicts(a, asks, end);
      run := Onwards(a, run, start, start, asks);
      run := Onwards(a, run, start, asks, end);
    }
  }

  lemma LooksUp(a: InputHashers, p: Point, q: Point, pk: nat)
    requires Sound(p.store.kb) && p.phase.Classifying? && pk in p.phase.todo && pk in p.phase.inputs
             && q.store == p.store
    requires q.phase == if HasOkRow(p.store, p.phase.config, p.phase.inputs, pk)
                        then Classifying(p.phase.config, p.phase.inputs, p.phase.todo - {pk})
                        else ClassifyPredicting(p.phase.config, p.phase.inputs, p.phase.todo, pk)
    ensures Goes(a, p, q)
  {
    hide Sound;
    assert q.phase == AfterLookup(p.store, p.phase.config, p.phase.inputs, p.phase.todo, pk);
  }

  lemma Predicts(a: InputHashers, p: Point, q: Point)
    requires Sound(p.store.kb) && p.phase.ClassifyPredicting? && p.phase.pk in p.phase.inputs
    requires var key := (p.phase.pk, p.phase.config);
             q.store == p.store.(classified := p.store.classified[key := Classified(p.phase.inputs[p.phase.pk], true)])
    requires q.phase == Classifying(p.phase.config, p.phase.inputs, p.phase.todo - {p.phase.pk})
    ensures Goes(a, p, q)
  {
    hide Sound;
    assert PredictionCommits(p.store, p.phase.config, p.phase.inputs, p.phase.todo, p.phase.pk, true, q.store, q.phase);
  }

  lemma {:induction false} PredictsAll(a: InputHashers, st: Store, config: nat, inputs: map<nat, string>,
                                       todo: set<nat>)
    returns (run: seq<Point>, after: Store)
    requires Sound(st.kb) && todo <= inputs.Keys
    ensures Alone(a, run, Point(st, Classifying(config, inputs, todo)), Point(after, Classifying(config, inputs, {})))
    ensures Filled(st, config, inputs, todo, after)
    decreases todo
  {
    hide Sound, Alone, Goes, Filled;
    if todo == {} {
      after := st;
      run := Beginning(a, Point(st, Classifying(config, inputs, {})));
      NothingToFill(st, config, inputs);
    } else {
      var pk :| pk in todo;
      var via: Store, rest: seq<Point>;
      run, via := PredictsOne(a, st, config, inputs, todo, pk);
      SameKbFilled(st, config, inputs, {pk}, via);
      rest, after := PredictsAll(a, via, config, inputs, todo - {pk});
      run := Together(a, run, rest, Point(st, Classifying(config, inputs, todo)),
                      Point(via, Classifying(config, inputs, todo - {pk})),
                        Point(after, Classifying(config, inputs, {})));
      FilledTogether(st, config, inputs, todo, pk, via, after);
    }
  }

  lemma SameKbFilled(st: Store, config: nat, inputs: map<nat, string>, todo: set<nat>, after: Store)
    requires Filled(st, config, inputs, todo, after)
    ensures after.kb == st.kb && after == st.(classified := after.classified)
    ensures forall pk :: pk in todo && pk in inputs ==> HasOkRow(after, config, inputs, pk)
  {
  }

  lemma FilledTogether(st: Store, config: nat, inputs: map<nat, string>, todo: set<nat>, pk: nat, via: Store,
                       after: Store)
    requires pk in todo && Filled(st, config, inputs, {pk}, via) && Filled(via, config, inputs, todo - {pk}, after)
    ensures Filled(st, config, inputs, todo, after)
  {
    assert forall key: (nat, nat) :: !(key.1 == config && key.0 in todo) ==>
        !(key.1 == config && key.0 in {pk}) && !(key.1 == config && key.0 in todo - {pk});
    forall other | other in todo && other in inputs ensures HasOkRow(after, config, inputs, other) {
      if other == pk {
        assert HasOkRow(via, config, inputs, pk);
        var key := (pk, config);
        assert !(key.1 == config && key.0 in todo - {pk});
      }
    }
  }

  /** A Model 1 backfill whose predictions all succeed goes through to its promotion: every current
      profile then has its OK row under the configuration, and no other row has changed. */
  lemma BackfillClassifiesEveryProfile(a: InputHashers, st: Store, config: nat)
    returns (run: seq<Point>, st': Store)
    requires Sound(st.kb) && KeysResolve(st.kb) && Current(st.kb) != {}
    ensures Alone(a, run, Point(st, ClassifyStart(config)), Point(st', Finished))
    ensures st' == st.(classified := st'.classified, activeClassification := Some(config))
    ensures forall pk :: pk in Current(st.kb) ==>
              (pk, config) in st'.classified && st'.classified[(pk, config)] == Classified(InputFor(a, st.kb, pk), true)
    ensures forall key: (nat, nat) :: !(key.1 == config && key.0 in Current(st.kb)) ==>
              (key in st'.classified <==> key in st.classified)
              && (key in st'.classified ==> st'.classified[key] == st.classified[key])
  {
    var inputs := CurrentInputs(a, st.kb);
    assert inputs.Keys == Current(st.kb);
    CorpusExactly(a, st.kb, inputs);
    var start, begun := Point(st, ClassifyStart(config)), Point(st, Classifying(config, inputs, inputs.Keys));
    Begins(a, st, config, inputs);
    hide Sound, Alone, Goes, CurrentInputs, KeysResolve, Current;
    var after: Store, rest: seq<Point>;
    run, after := PredictsAll(a, st, config, inputs, inputs.Keys);
    st' := after.(activeClassification := Some(config));
    SameKbFilled(st, config, inputs, inputs.Keys, after);
    rest := ModelOneRun(a, after, config, inputs, st');
    run := Together(a, [start, begun], run, start, begun, Point(after, Classifying(config, inputs, {})));
    run := Together(a, run, rest, start, Point(after, Classifying(config, inputs, {})), Point(st', Finished));
  }

  lemma Begins(a: InputHashers, st: Store, config: nat, inputs: map<nat, string>)
    requires Sound(st.kb) && KeysResolve(st.kb) && inputs == CurrentInputs(a, st.kb) && inputs != map[]
    ensures Alone(a, [Point(st, ClassifyStart(config)), Point(st, Classifying(config, inputs, inputs.Keys))],
                  Point(st, ClassifyStart(config)), Point(st, Classifying(config, inputs, inputs.Keys)))
  {
    hide Sound, CurrentInputs;
  }
}

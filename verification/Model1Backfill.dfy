/** The Model 1 backfill of the existing knowledge base: input assembly, the prediction loop, and
    the verification before promotion (backend/worker/existing_model1.py,
    backend/scripts/classify_existing_model1.py). */
module Model1Backfill {
  import opened Wrappers
  import opened Sorting

  // ---------------------------------------------------------------- input assembly

  /** An approved-fact row, its texts already cleaned of surplus white space. */
  datatype Fact = Fact(field: string, status: string, value: string, ordinal: Option<int>)

  datatype Profile = Profile(id: string, title: string, facts: seq<Fact>)

  datatype Payload = Payload(title: string, purpose: string, content: string, target: string)

  /** SHA-256 of the canonical JSON of the four fields, taken to be injective. */
  datatype Sha = Sha256(payload: Payload)

  datatype Input = Input(profile: string, payload: Payload)

  const PURPOSE_FIELDS := {"purpose_goal"}
  const CONTENT_FIELDS := {"support_components", "support_activities", "support_methods", "support_items",
    "support_content"}
  const TARGET_FIELDS := {
    "applicant_eligibility", "support_target", "eligibility_conditions", "beneficiary",
    "applicable_entity", "exclusions", "duplicate_support_conditions", "participation_requirements"}

  datatype Ranked = Ranked(ordinal: int, encounter: nat, value: string)

  predicate Chosen(f: Fact, fields: set<string>) {
    f.field in fields && f.status in {"identified", "partial"} && f.value != ""
  }

  /** The rows that _ordered_values sorts; a fact without ordinal ranks by where it was met. */
  function RankedRows(facts: seq<Fact>, fields: set<string>): (rows: seq<Ranked>) {
    if facts == [] then []
    else
      var n := |facts| - 1;
      var (init, last) := (RankedRows(facts[..n], fields), facts[n]);
      if Chosen(last, fields) then init + [Ranked(if last.ordinal.Some? then last.ordinal.value else n, n, last.value)]
      else init
  }

  predicate ByRank(a: Ranked, b: Ranked) {
    a.ordinal < b.ordinal || (a.ordinal == b.ordinal && a.encounter <= b.encounter)
  }

  function ValuesOf(rows: seq<Ranked>): (values: seq<string>)
    ensures |values| == |rows| && forall i :: 0 <= i < |rows| ==> values[i] == rows[i].value
  {
    seq(|rows|, i requires 0 <= i < |rows| => rows[i].value)
  }

  function OrderedValues(facts: seq<Fact>, fields: set<string>): (values: seq<string>) {
    ValuesOf(SortBy(RankedRows(facts, fields), ByRank))
  }

  function Lines(values: seq<string>): (text: string) {
    if values == [] then "" else if |values| == 1 then values[0] else values[0] + "\n" + Lines(values[1..])
  }

  function Assemble(p: Profile): (input: Input) {
    Input(p.id, Payload(p.title, Lines(OrderedValues(p.facts, PURPOSE_FIELDS)),
                        Lines(OrderedValues(p.facts, CONTENT_FIELDS)), Lines(OrderedValues(p.facts, TARGET_FIELDS))))
  }

  /** What a row contributes, without the order in which it was met. */
  datatype Placed = Placed(ordinal: int, value: string)

  predicate ByOrdinal(a: Placed, b: Placed) {
    a.ordinal <= b.ordinal
  }

  function Places(rows: seq<Ranked>): (places: seq<Placed>)
    ensures |places| == |rows| && forall i :: 0 <= i < |rows| ==> places[i] == Placed(rows[i].ordinal, rows[i].value)
  {
    seq(|rows|, i requires 0 <= i < |rows| => Placed(rows[i].ordinal, rows[i].value))
  }

  ghost predicate DistinctOrdinals(facts: seq<Fact>) {
    && (forall f :: f in facts ==> f.ordinal.Some?)
    && (forall i, j :: 0 <= i < j < |facts| ==> facts[i].ordinal != facts[j].ordinal)
  }

  function OrdinalOf(row: Ranked): (ordinal: int) {
    row.ordinal
  }

  lemma {:induction false} RankedRowsAreFacts(facts: seq<Fact>, fields: set<string>)
    requires DistinctOrdinals(facts)
    ensures forall row :: row in RankedRows(facts, fields) ==>
              exists f :: f in facts && Chosen(f, fields) && f.ordinal == Some(row.ordinal) && f.value == row.value
    ensures DistinctKeys(RankedRows(facts, fields), OrdinalOf)
  {
    hide Chosen;
    if facts != [] {
      var n := |facts| - 1;
      RankedRowsAreFacts(facts[..n], fields);
      var init := RankedRows(facts[..n], fields);
      assert facts == facts[..n] + [facts[n]] && facts[n] in facts;
      assert forall i :: 0 <= i < |init| ==> init[i] in init;
    }
  }

  lemma {:induction false} ChosenFactsAreRanked(facts: seq<Fact>, fields: set<string>, f: Fact)
    requires f in facts && Chosen(f, fields) && f.ordinal.Some?
    ensures exists row :: row in RankedRows(facts, fields) && row.ordinal == f.ordinal.value && row.value == f.value
  {
    hide Chosen;
    var n := |facts| - 1;
    assert facts == facts[..n] + [facts[n]];
    if f in facts[..n] {
      ChosenFactsAreRanked(facts[..n], fields, f);
    } else {
      var rows := RankedRows(facts, fields);
      assert rows[|rows| - 1] in rows;
    }
  }

  /** The sorted rows without their encounters: in strictly ascending order of the ordinals, and
      one for each chosen fact. */
  lemma {:induction false} PlacesInOrder(facts: seq<Fact>, fields: set<string>)
    requires DistinctOrdinals(facts)
    ensures var places := Places(SortBy(RankedRows(facts, fields), ByRank));
            && Ascending(places, ByOrdinal) && Distinct(places)
            && (forall p, q :: p in places && q in places && ByOrdinal(p, q) && ByOrdinal(q, p) ==> p == q)
            && forall p :: p in places <==>
                 exists f :: f in facts && Chosen(f, fields) && f.ordinal == Some(p.ordinal) && f.value == p.value
  {
    var rows := RankedRows(facts, fields);
    var ordered := SortBy(rows, ByRank);
    SortingSorts(rows, ByRank);
    RankedRowsAreFacts(facts, fields);
    RearrangedKeysStayDistinct(rows, ordered, OrdinalOf);
    hide SortBy, RankedRows, Chosen, DistinctOrdinals, DistinctKeys;
    OrderOfPlaces(ordered);
    PlacedExactly(facts, fields, rows, ordered);
  }

  lemma PlacedExactly(facts: seq<Fact>, fields: set<string>, rows: seq<Ranked>, ordered: seq<Ranked>)
    requires DistinctOrdinals(facts) && rows == RankedRows(facts, fields)
    requires forall row :: row in ordered <==> row in rows
    ensures forall p :: p in Places(ordered) <==>
              exists f :: f in facts && Chosen(f, fields) && f.ordinal == Some(p.ordinal) && f.value == p.value
  {
    RankedRowsAreFacts(facts, fields);
    var places := Places(ordered);
    forall p ensures p in places
       <==> exists f :: f in facts && Chosen(f, fields) && f.ordinal == Some(p.ordinal) && f.value == p.value {
      hide Chosen, RankedRows, DistinctKeys;
      if p in places {
        var i :| 0 <= i < |places| && places[i] == p;
        assert ordered[i] in ordered;
      }
      if f :| f in facts && Chosen(f, fields) && f.ordinal == Some(p.ordinal) && f.value == p.value {
        ChosenFactsAreRanked(facts, fields, f);
        var row :| row in rows && row.ordinal == p.ordinal && row.value == p.value;
        var i :| 0 <= i < |ordered| && ordered[i] == row;
        assert places[i] == p;
      }
    }
  }

  lemma OrderOfPlaces(ordered: seq<Ranked>)
    requires Ascending(ordered, ByRank) && DistinctKeys(ordered, OrdinalOf)
    ensures var places := Places(ordered);
            && Ascending(places, ByOrdinal) && Distinct(places)
            && forall p, q :: p in places && q in places && ByOrdinal(p, q) && ByOrdinal(q, p) ==> p == q
  {
    var places := Places(ordered);
    forall i, j | 0 <= i < j < |places| ensures places[i].ordinal < places[j].ordinal {
      assert ByRank(ordered[i], ordered[j]) && OrdinalOf(ordered[i]) != OrdinalOf(ordered[j]);
    }
  }

  /** With explicit, distinct ordinals the model's input does not depend on the order in which the
      fact rows were fetched. */
  lemma AssemblyIgnoresRowOrder(p: Profile, q: Profile)
    requires p.id == q.id && p.title == q.title
    requires DistinctOrdinals(p.facts) && DistinctOrdinals(q.facts) && (forall f :: f in p.facts <==> f in q.facts)
    ensures Assemble(p) == Assemble(q)
  {
    hide DistinctOrdinals, Lines, OrderedValues;
    ValuesIgnoreRowOrder(p.facts, q.facts, PURPOSE_FIELDS);
    ValuesIgnoreRowOrder(p.facts, q.facts, CONTENT_FIELDS);
    ValuesIgnoreRowOrder(p.facts, q.facts, TARGET_FIELDS);
  }

  lemma ValuesIgnoreRowOrder(a: seq<Fact>, b: seq<Fact>, fields: set<string>)
    requires DistinctOrdinals(a) && DistinctOrdinals(b) && (forall f :: f in a <==> f in b)
    ensures OrderedValues(a, fields) == OrderedValues(b, fields)
  {
    PlacesInOrder(a, fields);
    PlacesInOrder(b, fields);
    hide SortBy, RankedRows, Chosen, DistinctOrdinals, Ascending, Distinct;
    var (r, s) := (SortBy(RankedRows(a, fields), ByRank), SortBy(RankedRows(b, fields), ByRank));
    SortedIsUnique(Places(r), Places(s), ByOrdinal);
    assert forall i :: 0 <= i < |r| ==> r[i].value == Places(r)[i].value && s[i].value == Places(s)[i].value;
  }

  // ---------------------------------------------------------------- what the three texts hold

  /** An approved fact of one of these fields, with a value. */
  predicate Says(f: Fact, fields: set<string>) {
    f.field in fields && (f.status == "identified" || f.status == "partial") && f.value != ""
  }

  /** Where a fact ranks: by its ordinal, or by where it was met. */
  function Rank(facts: seq<Fact>, i: nat): (rank: int)
    requires i < |facts|
  {
    if facts[i].ordinal.Some? then facts[i].ordinal.value else i
  }

  /** The positions of exactly the facts that say something in these fields, by rank and then as met. */
  ghost predicate InRankOrder(facts: seq<Fact>, fields: set<string>, at: seq<nat>) {
    && (forall i: nat :: i in at <==> i < |facts| && Says(facts[i], fields))
    && (forall k, l :: 0 <= k < l < |at| ==>
          at[k] < |facts| && at[l] < |facts|
          && (Rank(facts, at[k]) < Rank(facts, at[l]) || (Rank(facts, at[k]) == Rank(facts, at[l]) && at[k] < at[l])))
  }

  ghost predicate ValuesAt(facts: seq<Fact>, at: seq<nat>, values: seq<string>) {
    |values| == |at| && forall k :: 0 <= k < |at| ==> at[k] < |facts| && values[k] == facts[at[k]].value
  }

  lemma {:induction false} RankedExactly(facts: seq<Fact>, fields: set<string>, row: Ranked)
    ensures row in RankedRows(facts, fields) <==>
              row.encounter < |facts| && Says(facts[row.encounter], fields)
              && row == Ranked(Rank(facts, row.encounter), row.encounter, facts[row.encounter].value)
  {
    if facts != [] {
      var n := |facts| - 1;
      RankedExactly(facts[..n], fields, row);
      assert forall i :: 0 <= i < n ==> facts[..n][i] == facts[i];
    }
  }

  function MetAt(row: Ranked): (encounter: int) { row.encounter }

  lemma {:induction false} RowsAreMetOnce(facts: seq<Fact>, fields: set<string>)
    ensures DistinctKeys(RankedRows(facts, fields), MetAt)
  {
    if facts != [] {
      var n := |facts| - 1;
      RowsAreMetOnce(facts[..n], fields);
      var init := RankedRows(facts[..n], fields);
      forall row | row in init ensures row.encounter < n {
        RankedExactly(facts[..n], fields, row);
      }
      assert forall i :: 0 <= i < |init| ==> init[i] in init;
    }
  }

  lemma RankOrder()
    ensures TotalPreorder(ByRank)
  {
  }

  function Encounters(rows: seq<Ranked>): (at: seq<nat>)
    ensures |at| == |rows| && forall k :: 0 <= k < |rows| ==> at[k] == rows[k].encounter
  {
    seq(|rows|, k requires 0 <= k < |rows| => rows[k].encounter)
  }

  /** The sorted row stands for the fact at its encounter. */
  ghost predicate StandsFor(facts: seq<Fact>, fields: set<string>, row: Ranked) {
    row.encounter < |facts| && Says(facts[row.encounter], fields)
    && row == Ranked(Rank(facts, row.encounter), row.encounter, facts[row.encounter].value)
  }

  lemma SortedRowsStandForFacts(facts: seq<Fact>, fields: set<string>)
    ensures var ordered := SortBy(RankedRows(facts, fields), ByRank);
            && (forall k :: 0 <= k < |ordered| ==> StandsFor(facts, fields, ordered[k]))
            && (forall i: nat :: i < |facts| && Says(facts[i], fields) ==> exists k ::
                 0 <= k < |ordered| && ordered[k].encounter == i)
            && Ascending(ordered, ByRank) && DistinctKeys(ordered, MetAt)
  {
    var rows := RankedRows(facts, fields);
    var ordered := SortBy(rows, ByRank);
    RankOrder();
    SortingSorts(rows, ByRank);
    RowsAreMetOnce(facts, fields);
    RearrangedKeysStayDistinct(rows, ordered, MetAt);
    hide SortBy, RankedRows, Says, Ascending, DistinctKeys;
    forall k | 0 <= k < |ordered| ensures StandsFor(facts, fields, ordered[k]) {
      assert ordered[k] in ordered;
      RankedExactly(facts, fields, ordered[k]);
    }
    forall i: nat | i < |facts| && Says(facts[i], fields) ensures exists k ::
       0 <= k < |ordered| && ordered[k].encounter == i {
      var row := Ranked(Rank(facts, i), i, facts[i].value);
      RankedExactly(facts, fields, row);
      var k :| 0 <= k < |ordered| && ordered[k] == row;
    }
  }

  lemma OrderedValuesExactly(facts: seq<Fact>, fields: set<string>) returns (at: seq<nat>)
    ensures InRankOrder(facts, fields, at) && ValuesAt(facts, at, OrderedValues(facts, fields))
  {
    SortedRowsStandForFacts(facts, fields);
    hide SortBy, RankedRows, Says;
    var ordered := SortBy(RankedRows(facts, fields), ByRank);
    at := Encounters(ordered);
    forall k, l | 0 <= k < l < |at|
      ensures Rank(facts, at[k]) < Rank(facts, at[l]) || (Rank(facts, at[k]) == Rank(facts, at[l]) && at[k] < at[l])
    {
      assert StandsFor(facts, fields, ordered[k]) && StandsFor(facts, fields, ordered[l]);
      assert ByRank(ordered[k], ordered[l]) && MetAt(ordered[k]) != MetAt(ordered[l]);
    }
    forall i: nat ensures i in at <==> i < |facts| && Says(facts[i], fields) {
      if k :| 0 <= k < |at| && at[k] == i {
        assert StandsFor(facts, fields, ordered[k]);
      }
    }
    forall k | 0 <= k < |at| ensures at[k] < |facts| && ordered[k].value == facts[at[k]].value {
      assert StandsFor(facts, fields, ordered[k]);
    }
  }

  /** The lines are the values with a line break between any two of them. */
  lemma {:induction false} LinesAreJoined(values: seq<string>, last: string)
    ensures Lines([]) == "" && Lines([last]) == last
    ensures values != [] ==> Lines(values + [last]) == Lines(values) + "\n" + last
  {
    if |values| == 1 {
      assert (values + [last])[1..] == [last];
    } else if |values| > 1 {
      LinesAreJoined(values[1..], last);
      assert (values + [last])[1..] == values[1..] + [last];
    }
  }

  /** What Model 1 is given: the title, and per text the values of its approved facts, one a line, by
      ordinal; repeated values stay. */
  lemma AssembledExactly(p: Profile) returns (purpose: seq<string>, content: seq<string>, target: seq<string>,
                                              places: seq<seq<nat>>)
    ensures Assemble(p) == Input(p.id, Payload(p.title, Lines(purpose), Lines(content), Lines(target)))
    ensures |places| == 3
    ensures InRankOrder(p.facts, {"purpose_goal"}, places[0]) && ValuesAt(p.facts, places[0], purpose)
    ensures ValuesAt(p.facts, places[1], content)
    ensures InRankOrder(p.facts,
              {"support_content", "support_activities", "support_methods", "support_items", "support_components"},
                        places[1])
    ensures ValuesAt(p.facts, places[2], target)
    ensures InRankOrder(p.facts,
              {"support_target", "beneficiary", "applicant_eligibility", "applicable_entity", "exclusions",
                                  "eligibility_conditions", "participation_requirements",
                                    "duplicate_support_conditions"},
                        places[2])
  {
    purpose, content := OrderedValues(p.facts, PURPOSE_FIELDS), OrderedValues(p.facts, CONTENT_FIELDS);
    target := OrderedValues(p.facts, TARGET_FIELDS);
    var a := OrderedValuesExactly(p.facts, PURPOSE_FIELDS);
    var b := OrderedValuesExactly(p.facts, CONTENT_FIELDS);
    var c := OrderedValuesExactly(p.facts, TARGET_FIELDS);
    places := [a, b, c];
    FieldsOfTexts();
    hide OrderedValues, InRankOrder, ValuesAt;
  }

  lemma FieldsOfTexts()
    ensures PURPOSE_FIELDS == {"purpose_goal"}
    ensures CONTENT_FIELDS
            == {"support_content", "support_activities", "support_methods", "support_items", "support_components"}
    ensures TARGET_FIELDS
            == {"support_target", "beneficiary", "applicant_eligibility", "applicable_entity", "exclusions",
                              "eligibility_conditions", "participation_requirements", "duplicate_support_conditions"}
  {
  }

  // ---------------------------------------------------------------- the tables

  datatype Prediction = Prediction(supportType: string, confidence: real, status: string)

  datatype Outcome = Succeeded(prediction: Prediction) | ExecutionFailed(reason: string)
  datatype Classification = Classification(input: Sha, outcome: Outcome)
  datatype Key = Key(profile: string, config: string)
  type Classifications = map<Key, Classification>

  /** One model_invocation row: what the model was asked, and whether it answered. */
  datatype Invocation = Invocation(input: Sha, succeeded: bool)

  datatype RunStatus = RunSucceeded | RunFailed

  /** The model: what the n-th call says about a payload, None for a call that raises or whose
      answer is not an allowed prediction. */
  type Model = (nat, Payload) -> Option<Prediction>

  /** has_result */
  predicate HasResult(rows: Classifications, config: string, input: Input) {
    var key := Key(input.profile, config);
    key in rows && rows[key].outcome.Succeeded? && rows[key].input == Sha256(input.payload)
  }

  /** current_model1_input_hashes: one hash per profile, and no profile twice. */
  function InputHashes(inputs: seq<Input>): (r: Result<map<string, Sha>>) {
    if inputs == [] then Ok(map[])
    else
      match InputHashes(inputs[..|inputs| - 1])
      case Err(message) => Err(message)
      case Ok(hashes) =>
        var last := inputs[|inputs| - 1];
        if last.profile in hashes then Err("current Existing corpus has duplicate profile versions")
        else Ok(hashes[last.profile := Sha256(last.payload)])
  }

  function Inputs(corpus: seq<Profile>): (inputs: seq<Input>)
    ensures |inputs| == |corpus| && forall i :: 0 <= i < |corpus| ==> inputs[i] == Assemble(corpus[i])
  {
    seq(|corpus|, i requires 0 <= i < |corpus| => Assemble(corpus[i]))
  }

  predicate NothingToSay(input: Input) {
    input.payload == Payload("", "", "", "")
  }

  // ---------------------------------------------------------------- the prediction loop

  datatype Progress = Progress(rows: Classifications, invocations: seq<Invocation>, predicted: nat, skipped: nat,
    failed: bool)

  function Backfilled(rows: Classifications, invocations: seq<Invocation>, config: string, inputs: seq<Input>,
                      model: Model): (p: Progress) {
    if inputs == [] then Progress(rows, invocations, 0, 0, false)
    else
      var (p, input) := (Backfilled(rows, invocations, config, inputs[..|inputs| - 1], model), inputs[|inputs| - 1]);
      var (key, sha) := (Key(input.profile, config), Sha256(input.payload));
      if p.failed then p
      else if HasResult(p.rows, config, input) then p.(skipped := p.skipped + 1)
      else
        match model(|p.invocations|, input.payload)
        case None =>
          Progress(p.rows[key := Classification(sha, ExecutionFailed("MODEL_EXECUTION_FAILED"))],
                   p.invocations + [Invocation(sha, false)], p.predicted, p.skipped, true)
        case Some(prediction) =>
          Progress(p.rows[key := Classification(sha, Succeeded(prediction))],
                   p.invocations + [Invocation(sha, true)], p.predicted + 1, p.skipped, false)
  }

  /** What verify_and_promote demands of the corpus as it is read again under the lock. */
  ghost predicate Verified(rows: Classifications, config: string, expected: map<string, Sha>,
                           current: Result<map<string, Sha>>) {
    && current == Ok(expected)
    && forall profile :: profile in expected ==>
         var key := Key(profile, config);
         key in rows && rows[key].outcome.Succeeded? && rows[key].input == expected[profile]
  }

  datatype Summary = Summary(profiles: nat, predicted: nat, skipped: nat, dryRun: bool, promoted: bool)

  class Model1Repository {
    var rows: Classifications
    var invocations: seq<Invocation>
    var runs: seq<RunStatus>
    var active: Option<string>
    var configurations: set<string>

    constructor (configurations: set<string>)
      ensures rows == map[] && invocations == [] && runs == [] && active == None
              && this.configurations == configurations
    {
      rows, invocations, runs, active, this.configurations := map[], [], [], None, configurations;
    }

    method WriteResult(config: string, input: Input, outcome: Outcome)
      modifies `rows, `invocations
      ensures rows == old(rows)[Key(input.profile, config) := Classification(Sha256(input.payload), outcome)]
      ensures invocations == old(invocations) + [Invocation(Sha256(input.payload), outcome.Succeeded?)]
    {
      invocations := invocations + [Invocation(Sha256(input.payload), outcome.Succeeded?)];
      rows := rows[Key(input.profile, config) := Classification(Sha256(input.payload), outcome)];
    }

    /** One transaction: re-read the corpus, check every result, flip the active configuration. */
    method VerifyAndPromote(config: string, expected: map<string, Sha>, corpus: seq<Profile>) returns (r: Result<()>)
      modifies `active
      ensures r.Ok? <==> config in configurations && Verified(rows, config, expected, InputHashes(Inputs(corpus)))
      ensures r.Ok? <==>
                && config in configurations
                && (forall i, j :: 0 <= i < j < |corpus| ==> corpus[i].id != corpus[j].id)
                && (forall profile :: profile in expected <==> exists p :: p in corpus && p.id == profile)
                && (forall p :: p in corpus && p.id in expected ==> expected[p.id] == Sha256(Assemble(p).payload))
                && (forall profile :: profile in expected ==>
                      Key(profile, config) in rows && rows[Key(profile, config)].outcome.Succeeded?
                      && rows[Key(profile, config)].input == expected[profile])
      ensures active == if r.Ok? then Some(config) else old(active)
    {
      CorpusIsExactly(corpus, expected);
      hide InputHashes, Assemble;
      if config !in configurations { return Err("classification configuration disappeared"); }
      var current := InputHashes(Inputs(corpus));
      if current.Err? { return Err(current.message); }
      if current.value != expected { return Err("current Existing Model 1 inputs changed during backfill"); }
      var todo := expected.Keys;
      while todo != {}
        invariant todo <= expected.Keys
        invariant forall profile :: profile in expected && profile !in todo ==>
                    var key := Key(profile, config);
                    key in rows && rows[key].outcome.Succeeded? && rows[key].input == expected[profile]
      {
        var profile :| profile in todo;
        var key := Key(profile, config);
        if key !in rows { return Err("Model 1 backfill is not complete for the current Existing corpus"); }
        if !rows[key].outcome.Succeeded? || rows[key].input != expected[profile] {
          return Err("Model 1 result verification failed");
        }
        todo := todo - {profile};
      }
      active := Some(config);
      r := Ok(());
    }

    /** The loop of the run: it stops at the first prediction that fails. */
    method PredictAll(config: string, model: Model, inputs: seq<Input>)
      returns (predicted: nat, skipped: nat, failed: bool)
      modifies `rows, `invocations
      ensures Backfilled(old(rows), old(invocations), config, inputs, model)
              == Progress(rows, invocations, predicted, skipped, failed)
    {
      predicted, skipped, failed := 0, 0, false;
      for i := 0 to |inputs|
        invariant !failed
        invariant Backfilled(old(rows), old(invocations), config, inputs[..i], model)
                  == Progress(rows, invocations, predicted, skipped, failed)
      {
        assert inputs[..i + 1][..i] == inputs[..i];
        var input := inputs[i];
        if HasResult(rows, config, input) {
          skipped := skipped + 1;
          continue;
        }
        var answer := model(|invocations|, input.payload);
        if answer.None? {
          WriteResult(config, input, ExecutionFailed("MODEL_EXECUTION_FAILED"));
          FailureStays(old(rows), old(invocations), config, inputs, i + 1, model);
          failed := true;
          return;
        }
        WriteResult(config, input, Succeeded(answer.value));
        predicted := predicted + 1;
      }
      assert inputs[..|inputs|] == inputs;
    }

    /** ExistingModel1Backfill.run. The corpus may have changed by the time it is verified. */
    method Run(config: string, model: Model, dryRun: bool, corpus: seq<Profile>, corpusAtPromotion: seq<Profile>)
      returns (r: Result<Summary>)
      modifies `rows, `invocations, `runs, `active
      ensures var (inputs, expected) := (Inputs(corpus), InputHashes(Inputs(corpus)));
              var p := Backfilled(old(rows), old(invocations), config, inputs, model);
              if expected.Err? || inputs == [] || exists input ::
                 input in inputs && input.payload == Payload("", "", "", "") then
                r.Err? && rows == old(rows) && invocations == old(invocations) && runs == old(runs)
                  && active == old(active)
              else if dryRun then
                && r == Ok(Summary(|inputs|, 0, 0, true, false))
                && rows == old(rows) && invocations == old(invocations) && runs == old(runs) && active == old(active)
              else
                var promoted := !p.failed && config in configurations
                     && Verified(p.rows, config, expected.value, InputHashes(Inputs(corpusAtPromotion)));
                && rows == p.rows && invocations == p.invocations
                && runs == old(runs) + [if promoted then RunSucceeded else RunFailed]
                && active == (if promoted then Some(config) else old(active))
                && (if promoted then r == Ok(Summary(|inputs|, p.predicted, p.skipped, false, true)) else r.Err?)
    {
      hide Verified, Assemble, Backfilled, InputHashes;
      var inputs := Inputs(corpus);
      var expected := InputHashes(inputs);
      if expected.Err? { return Err(expected.message); }
      if inputs == [] { return Err("current Existing corpus is empty; refusing configuration promotion"); }
      if exists input :: input in inputs && NothingToSay(input) {
        return Err("an Existing profile has no approved Model 1 input");
      }
      if dryRun { return Ok(Summary(|inputs|, 0, 0, true, false)); }
      var predicted, skipped, failed := PredictAll(config, model, inputs);
      if failed {
        runs := runs + [RunFailed];
        return Err("model execution failed");
      }
      var promoted := VerifyAndPromote(config, expected.value, corpusAtPromotion);
      if promoted.Err? {
        runs := runs + [RunFailed];
        return Err(promoted.message);
      }
      runs := runs + [RunSucceeded];
      r := Ok(Summary(|inputs|, predicted, skipped, false, true));
    }
  }

  lemma {:induction false} FailureStays(rows: Classifications, invocations: seq<Invocation>, config: string,
                                        inputs: seq<Input>, k: nat, model: Model)
    requires k <= |inputs| && Backfilled(rows, invocations, config, inputs[..k], model).failed
    ensures Backfilled(rows, invocations, config, inputs, model)
            == Backfilled(rows, invocations, config, inputs[..k], model)
    decreases |inputs|
  {
    if k < |inputs| {
      var init := inputs[..|inputs| - 1];
      assert init[..k] == inputs[..k];
      FailureStays(rows, invocations, config, init, k, model);
    } else {
      assert inputs[..k] == inputs;
    }
  }

  // ---------------------------------------------------------------- what a run guarantees

  ghost predicate DistinctProfiles(inputs: seq<Input>) {
    forall i, j :: 0 <= i < j < |inputs| ==> inputs[i].profile != inputs[j].profile
  }

  lemma {:induction false} HashesTellTheInputs(inputs: seq<Input>)
    requires InputHashes(inputs).Ok?
    ensures DistinctProfiles(inputs)
    ensures forall input :: input in inputs ==>
              input.profile in InputHashes(inputs).value
                && InputHashes(inputs).value[input.profile] == Sha256(input.payload)
    ensures forall profile :: profile in InputHashes(inputs).value ==> exists input ::
              input in inputs && input.profile == profile
  {
    if inputs != [] {
      var (init, last) := (inputs[..|inputs| - 1], inputs[|inputs| - 1]);
      HashesTellTheInputs(init);
      assert inputs == init + [last];
      assert forall i :: 0 <= i < |init| ==> init[i] in init && init[i].profile != last.profile;
      assert DistinctProfiles(inputs);
      hide DistinctProfiles;
    }
  }

  lemma {:induction false} HashesOfDistinctProfiles(inputs: seq<Input>)
    ensures InputHashes(inputs).Ok? <==> DistinctProfiles(inputs)
  {
    hide DistinctProfiles;
    if inputs == [] {
      NoneIsDistinct();
    } else {
      var (init, last) := (inputs[..|inputs| - 1], inputs[|inputs| - 1]);
      HashesOfDistinctProfiles(init);
      DistinctOneMore(init, last);
      assert inputs == init + [last];
      if InputHashes(init).Ok? {
        HashesTellTheInputs(init);
      }
    }
  }

  lemma NoneIsDistinct()
    ensures DistinctProfiles([])
  {
  }

  lemma DistinctOneMore(init: seq<Input>, last: Input)
    ensures DistinctProfiles(init + [last])
            <==> DistinctProfiles(init) && forall input :: input in init ==> input.profile != last.profile
  {
    var inputs := init + [last];
    assert forall i :: 0 <= i < |init| ==> inputs[i] == init[i] && init[i] in init;
    if DistinctProfiles(inputs) {
      forall input | input in init ensures input.profile != last.profile {
        var i :| 0 <= i < |init| && init[i] == input;
        assert inputs[i].profile != inputs[|init|].profile;
      }
    }
  }

  /** The corpus that verification reads is the expected one exactly when no profile comes twice, the
      profiles are the expected ones, and each assembles to its expected hash. */
  lemma CorpusIsExactly(corpus: seq<Profile>, expected: map<string, Sha>)
    ensures InputHashes(Inputs(corpus)) == Ok(expected) <==>
              && (forall i, j :: 0 <= i < j < |corpus| ==> corpus[i].id != corpus[j].id)
              && (forall profile :: profile in expected <==> exists p :: p in corpus && p.id == profile)
              && (forall p :: p in corpus && p.id in expected ==> expected[p.id] == Sha256(Assemble(p).payload))
  {
    var inputs := Inputs(corpus);
    HashesOfDistinctProfiles(inputs);
    AssembledIds(corpus);
    hide InputHashes, Assemble, Inputs;
    if InputHashes(inputs).Ok? {
      HashesTellTheInputs(inputs);
      var hashes := InputHashes(inputs).value;
      forall profile ensures profile in hashes <==> exists p :: p in corpus && p.id == profile {
        if profile in hashes {
          var input :| input in inputs && input.profile == profile;
          var i :| 0 <= i < |inputs| && inputs[i] == input;
          assert corpus[i] in corpus;
        }
        if p :| p in corpus && p.id == profile {
          var i :| 0 <= i < |corpus| && corpus[i] == p;
          assert inputs[i] in inputs;
        }
      }
      forall p | p in corpus ensures p.id in hashes && hashes[p.id] == Sha256(Assemble(p).payload) {
        var i :| 0 <= i < |corpus| && corpus[i] == p;
        assert inputs[i] in inputs;
      }
      SameHashes(corpus, hashes, expected);
    }
  }

  lemma AssembledIds(corpus: seq<Profile>)
    ensures var inputs := Inputs(corpus);
            && |inputs| == |corpus|
            && (forall i :: 0 <= i < |corpus| ==>
                 inputs[i].profile == corpus[i].id && inputs[i].payload == Assemble(corpus[i]).payload)
            && (DistinctProfiles(inputs) <==> forall i, j :: 0 <= i < j < |corpus| ==> corpus[i].id != corpus[j].id)
  {
    hide OrderedValues, Lines;
  }

  lemma SameHashes(corpus: seq<Profile>, hashes: map<string, Sha>, expected: map<string, Sha>)
    requires forall profile :: profile in hashes <==> exists p :: p in corpus && p.id == profile
    requires forall p :: p in corpus ==> p.id in hashes && hashes[p.id] == Sha256(Assemble(p).payload)
    ensures hashes == expected <==>
              && (forall profile :: profile in expected <==> exists p :: p in corpus && p.id == profile)
              && (forall p :: p in corpus && p.id in expected ==> expected[p.id] == Sha256(Assemble(p).payload))
  {
    hide Assemble;
    if && (forall profile :: profile in expected <==> exists p :: p in corpus && p.id == profile)
       && (forall p :: p in corpus && p.id in expected ==> expected[p.id] == Sha256(Assemble(p).payload)) {
      forall profile ensures profile in hashes <==> profile in expected {}
      forall profile | profile in hashes ensures hashes[profile] == expected[profile] {
        var p :| p in corpus && p.id == profile;
      }
      assert hashes.Keys == expected.Keys;
    }
  }

  /** The inputs without a successful row of exactly their hash. */
  function Missing(rows: Classifications, config: string, inputs: seq<Input>): (missing: seq<Input>) {
    if inputs == [] then []
    else
      var (init, last) := (Missing(rows, config, inputs[..|inputs| - 1]), inputs[|inputs| - 1]);
      if HasResult(rows, config, last) then init else init + [last]
  }

  function Answered(inputs: seq<Input>): (invocations: seq<Invocation>)
    ensures |invocations| == |inputs| && forall i :: 0 <= i < |inputs| ==>
              invocations[i] == Invocation(Sha256(inputs[i].payload), true)
  {
    seq(|inputs|, i requires 0 <= i < |inputs| => Invocation(Sha256(inputs[i].payload), true))
  }

  /** Rows of other profiles are as they were. */
  lemma {:induction false} OtherRowsStay(rows: Classifications, invocations: seq<Invocation>, config: string,
                                         inputs: seq<Input>, model: Model, key: Key)
    requires forall input :: input in inputs ==> key != Key(input.profile, config)
    ensures var p := Backfilled(rows, invocations, config, inputs, model);
            (key in p.rows <==> key in rows) && (key in rows ==> p.rows[key] == rows[key])
  {
    if inputs != [] {
      assert inputs == inputs[..|inputs| - 1] + [inputs[|inputs| - 1]];
      OtherRowsStay(rows, invocations, config, inputs[..|inputs| - 1], model, key);
    }
  }

  lemma LastProfileIsNew(inputs: seq<Input>)
    requires DistinctProfiles(inputs) && inputs != []
    ensures DistinctProfiles(inputs[..|inputs| - 1])
    ensures forall input :: input in inputs[..|inputs| - 1] ==> input.profile != inputs[|inputs| - 1].profile
  {
  }

  /** The model is called exactly for the profiles that lack a successful row with their hash, in
      corpus order, up to and including the first that fails; nothing else is recorded. */
  lemma {:induction false} OnlyMissingResultsAreAsked(rows: Classifications, invocations: seq<Invocation>,
                                                      config: string, inputs: seq<Input>, model: Model)
    requires DistinctProfiles(inputs)
    ensures var (p, missing) := (Backfilled(rows, invocations, config, inputs, model), Missing(rows, config, inputs));
            && p.predicted <= |missing|
            && (!p.failed ==>
                 p.predicted == |missing| && p.skipped == |inputs| - |missing|
                   && p.invocations == invocations + Answered(missing))
            && (p.failed ==>
                  (&& p.predicted < |missing|
                   && p.invocations
                      == invocations + Answered(missing[..p.predicted])
                        + [Invocation(Sha256(missing[p.predicted].payload), false)]))
  {
    if inputs != [] {
      var (init, last) := (inputs[..|inputs| - 1], inputs[|inputs| - 1]);
      LastProfileIsNew(inputs);
      OnlyMissingResultsAreAsked(rows, invocations, config, init, model);
      OtherRowsStay(rows, invocations, config, init, model, Key(last.profile, config));
      var (p, missing) := (Backfilled(rows, invocations, config, init, model), Missing(rows, config, init));
      assert HasResult(p.rows, config, last) <==> HasResult(rows, config, last);
      hide HasResult;
      assert Answered(missing + [last]) == Answered(missing) + [Invocation(Sha256(last.payload), true)];
      assert missing[..|missing|] == missing && (missing + [last])[..|missing|] == missing;
      assert p.failed ==> (missing + [last])[..p.predicted] == missing[..p.predicted];
    }
  }

  ghost predicate PredictedAt(p: Progress, config: string, input: Input, answer: Option<Prediction>) {
    && answer.Some? && Key(input.profile, config) in p.rows
    && p.rows[Key(input.profile, config)] == Classification(Sha256(input.payload), Succeeded(answer.value))
  }

  /** The rows of a run: each profile that was asked has what the model said of its payload, the one
      that failed has the failure, and every other row is as it was. */
  lemma {:induction false} RowsOfARun(rows: Classifications, invocations: seq<Invocation>, config: string,
                                      inputs: seq<Input>, model: Model, key: Key)
    requires DistinctProfiles(inputs)
    ensures RowsOf(Backfilled(rows, invocations, config, inputs, model), rows, |invocations|, config,
                   Missing(rows, config, inputs), model, key)
  {
    hide RowsOf, DistinctProfiles, PredictedAt, Answered;
    if inputs == [] {
      NothingRan(rows, invocations, config, model, key);
    } else {
      var (init, last) := (inputs[..|inputs| - 1], inputs[|inputs| - 1]);
      LastProfileIsNew(inputs);
      RowsOfARun(rows, invocations, config, init, model, key);
      OtherRowsStay(rows, invocations, config, init, model, Key(last.profile, config));
      MissingAreInputs(rows, config, init);
      OnlyMissingResultsAreAsked(rows, invocations, config, init, model);
      var (p, missing) := (Backfilled(rows, invocations, config, init, model), Missing(rows, config, init));
      assert HasResult(p.rows, config, last) <==> HasResult(rows, config, last);
      hide HasResult;
      if p.failed {
        OneMoreMissing(p, rows, |invocations|, config, missing, last, model, key);
      } else if !HasResult(rows, config, last) {
        OneMoreAsked(p, rows, |invocations|, config, missing, last, model, key);
      } else {
        Skipped(p, rows, |invocations|, config, missing, model, key);
      }
    }
  }

  ghost predicate RowsOf(p: Progress, rows: Classifications, calls: nat, config: string, missing: seq<Input>,
                         model: Model,
                         key: Key)
  {
    && p.predicted <= |missing| && (p.failed ==> p.predicted < |missing|)
    && |p.invocations| == calls + p.predicted + (if p.failed then 1 else 0)
    && (forall n :: 0 <= n < p.predicted ==> PredictedAt(p, config, missing[n], model(calls + n, missing[n].payload)))
    && (p.failed ==>
          var last := missing[p.predicted];
          && model(calls + p.predicted, last.payload) == None && Key(last.profile, config) in p.rows
          && p.rows[Key(last.profile, config)]
             == Classification(Sha256(last.payload), ExecutionFailed("MODEL_EXECUTION_FAILED")))
    && ((forall n :: 0 <= n < |missing| && (n < p.predicted || (p.failed && n == p.predicted)) ==>
           key != Key(missing[n].profile, config)) ==>
          (key in p.rows <==> key in rows) && (key in rows ==> p.rows[key] == rows[key]))
  }

  lemma OneMoreMissing(p: Progress, rows: Classifications, calls: nat, config: string, missing: seq<Input>, last: Input,
                       model: Model, key: Key)
    requires p.failed && RowsOf(p, rows, calls, config, missing, model, key)
    ensures RowsOf(p, rows, calls, config, missing, model, key)
    ensures RowsOf(p, rows, calls, config, missing + [last], model, key)
  {
    var more := missing + [last];
    assert forall n :: 0 <= n < |missing| ==> more[n] == missing[n];
  }

  lemma NothingRan(rows: Classifications, invocations: seq<Invocation>, config: string, model: Model, key: Key)
    ensures RowsOf(Progress(rows, invocations, 0, 0, false), rows, |invocations|, config, [], model, key)
  {
  }

  lemma Skipped(p: Progress, rows: Classifications, calls: nat, config: string, missing: seq<Input>, model: Model,
                key: Key)
    requires RowsOf(p, rows, calls, config, missing, model, key)
    ensures RowsOf(p.(skipped := p.skipped + 1), rows, calls, config, missing, model, key)
  {
  }

  lemma OneMoreAsked(p: Progress, rows: Classifications, calls: nat, config: string, missing: seq<Input>, last: Input,
                     model: Model, key: Key)
    requires !p.failed && p.predicted == |missing| && RowsOf(p, rows, calls, config, missing, model, key)
    requires forall n :: 0 <= n < |missing| ==> missing[n].profile != last.profile
    ensures var (k, sha) := (Key(last.profile, config), Sha256(last.payload));
            var after := match model(|p.invocations|, last.payload)
                         case None =>
                           Progress(p.rows[k := Classification(sha, ExecutionFailed("MODEL_EXECUTION_FAILED"))],
                                               p.invocations + [Invocation(sha, false)], p.predicted, p.skipped, true)
                         case Some(prediction) => Progress(p.rows[k := Classification(sha, Succeeded(prediction))],
                                                           p.invocations + [Invocation(sha, true)], p.predicted
                                                             + 1, p.skipped, false);
            RowsOf(after, rows, calls, config, missing + [last], model, key)
  {
    var more := missing + [last];
    assert forall n :: 0 <= n < |missing| ==> more[n] == missing[n];
    assert more[|missing|] == last;
  }

  lemma {:induction false} MissingAreInputs(rows: Classifications, config: string, inputs: seq<Input>)
    ensures forall n :: 0 <= n < |Missing(rows, config, inputs)| ==> Missing(rows, config, inputs)[n] in inputs
  {
    hide HasResult;
    if inputs != [] {
      MissingAreInputs(rows, config, inputs[..|inputs| - 1]);
    }
  }

  /** After a run without a failed prediction every input has its row. */
  lemma {:induction false} EveryInputHasItsRow(rows: Classifications, invocations: seq<Invocation>, config: string,
                                               inputs: seq<Input>, model: Model, input: Input)
    requires DistinctProfiles(inputs) && input in inputs
    requires !Backfilled(rows, invocations, config, inputs, model).failed
    ensures HasResult(Backfilled(rows, invocations, config, inputs, model).rows, config, input)
  {
    var (init, last) := (inputs[..|inputs| - 1], inputs[|inputs| - 1]);
    assert inputs == init + [last];
    LastProfileIsNew(inputs);
    if input in init {
      EveryInputHasItsRow(rows, invocations, config, init, model, input);
    }
  }

  lemma {:induction false} NothingMissing(rows: Classifications, config: string, inputs: seq<Input>)
    requires forall input :: input in inputs ==> HasResult(rows, config, input)
    ensures Missing(rows, config, inputs) == []
  {
    if inputs != [] {
      NothingMissing(rows, config, inputs[..|inputs| - 1]);
    }
  }

  /** Running again over the same corpus calls no model, whatever it would say now. */
  lemma RerunAsksNothing(rows: Classifications, invocations: seq<Invocation>, config: string, inputs: seq<Input>,
                         model: Model, later: seq<Invocation>, other: Model)
    requires DistinctProfiles(inputs) && !Backfilled(rows, invocations, config, inputs, model).failed
    ensures var after := Backfilled(rows, invocations, config, inputs, model).rows;
            var again := Backfilled(after, later, config, inputs, other);
            !again.failed && again.predicted == 0 && again.skipped == |inputs| && again.invocations == later
  {
    var after := Backfilled(rows, invocations, config, inputs, model).rows;
    forall input | input in inputs ensures HasResult(after, config, input) {
      EveryInputHasItsRow(rows, invocations, config, inputs, model, input);
    }
    NothingMissing(after, config, inputs);
    hide Backfilled;
    OnlyMissingResultsAreAsked(after, later, config, inputs, other);
  }

  /** A run that fails keeps what it predicted: the next one asks only for the rest. */
  lemma {:induction false} ProgressIsKept(rows: Classifications, invocations: seq<Invocation>, config: string,
                                          inputs: seq<Input>, model: Model)
    requires DistinctProfiles(inputs)
    ensures var p := Backfilled(rows, invocations, config, inputs, model);
            |Missing(p.rows, config, inputs)| + p.predicted == |Missing(rows, config, inputs)|
  {
    if inputs != [] {
      var (init, last) := (inputs[..|inputs| - 1], inputs[|inputs| - 1]);
      LastProfileIsNew(inputs);
      ProgressIsKept(rows, invocations, config, init, model);
      var (p, q) := (Backfilled(rows, invocations, config, init, model),
           Backfilled(rows, invocations, config, inputs, model));
      OtherRowsStay(rows, invocations, config, init, model, Key(last.profile, config));
      assert HasResult(p.rows, config, last) <==> HasResult(rows, config, last);
      hide DistinctProfiles;
      SameRowsSameMissing(p.rows, q.rows, config, init, last);
    }
  }

  lemma {:induction false} SameRowsSameMissing(rows: Classifications, more: Classifications, config: string,
                                               inputs: seq<Input>, last: Input)
    requires forall input :: input in inputs ==> input.profile != last.profile
    requires forall key :: key != Key(last.profile, config) ==>
               (key in more <==> key in rows) && (key in rows ==> more[key] == rows[key])
    ensures Missing(rows, config, inputs) == Missing(more, config, inputs)
  {
    if inputs != [] {
      SameRowsSameMissing(rows, more, config, inputs[..|inputs| - 1], last);
      assert inputs[|inputs| - 1] in inputs;
    }
  }

  /** Where the corpus has not changed, verification passes exactly when no prediction failed. */
  lemma {:induction false} UnchangedCorpusIsVerified(rows: Classifications, invocations: seq<Invocation>,
                                                     config: string, inputs: seq<Input>, model: Model)
    requires InputHashes(inputs).Ok?
    ensures var p := Backfilled(rows, invocations, config, inputs, model);
            var expected := InputHashes(inputs).value;
            Verified(p.rows, config, expected, Ok(expected)) <==> !p.failed
  {
    HashesTellTheInputs(inputs);
    var p := Backfilled(rows, invocations, config, inputs, model);
    var expected := InputHashes(inputs).value;
    if p.failed {
      ProgressIsKept(rows, invocations, config, inputs, model);
      OnlyMissingResultsAreAsked(rows, invocations, config, inputs, model);
      if Verified(p.rows, config, expected, Ok(expected)) {
        NothingMissing(p.rows, config, inputs);
      }
    } else {
      forall input | input in inputs ensures HasResult(p.rows, config, input) {
        EveryInputHasItsRow(rows, invocations, config, inputs, model, input);
      }
    }
  }
}

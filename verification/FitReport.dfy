/** The seven-relation report: how analyze_fit gathers the sides from a CPL result, which
    relations it lets the model judge, and what the report may say (backend/worker/fit.py). */
module FitReport {
  import opened Wrappers
  import opened J = FitJudging
  import opened FitFacts
  import FitHierarchy
  import Numerals
  import Q = FitQuantities

  /** A CPL result: its facts in order, and the statuses of the three condition fields. */
  datatype Cpl = Cpl(facts: seq<Fact>, conditionStatuses: seq<string>)

  /** _fact_id_registry */
  function Registry(cpl: Cpl): (ids: set<string>) {
    (set f | f in cpl.facts && f.factId != "" :: f.factId)
    + (set f | f in cpl.facts && f.relationId != "" :: f.relationId)
    + (set f | f in cpl.facts && FitFactId(f) != "" :: FitFactId(f))
  }

  // ---------------------------------------------------------------- sides

  function IdsAt(facts: seq<Fact>, path: Path): (ids: Side)
    ensures "" !in ids
    ensures forall id :: id in ids ==> exists f :: f in facts && FitFactId(f) == id
  {
    if facts == [] then []
    else
      var init := IdsAt(facts[..|facts| - 1], path);
      var last := facts[|facts| - 1];
      if last.path == path && FitFactId(last) != "" then init + [FitFactId(last)] else init
  }

  function SideAt(facts: seq<Fact>, paths: seq<Path>): (ids: Side)
    ensures "" !in ids
    ensures forall id :: id in ids ==> exists f :: f in facts && FitFactId(f) == id
  {
    if paths == [] then [] else SideAt(facts, paths[..|paths| - 1]) + IdsAt(facts, paths[|paths| - 1])
  }

  /** _purpose_side: the purpose facts that CPL put on one of the axes. */
  function PurposeSide(facts: seq<Fact>, axes: set<PurposeAxis>): (ids: Side)
    ensures "" !in ids
    ensures forall id :: id in ids ==> exists f :: f in facts && FitFactId(f) == id
  {
    if facts == [] then []
    else
      var init := PurposeSide(facts[..|facts| - 1], axes);
      var last := facts[|facts| - 1];
      if last.path == PurposeGoal && last.axis.Some? && last.axis.value in axes && FitFactId(last) != "" then
        init + [FitFactId(last)]
      else init
  }

  /** One side of _delivery_sides within the delivery relations. */
  function DeliveryMembers(facts: seq<Fact>, actors: bool): (ids: Side)
    ensures "" !in ids
    ensures forall id :: id in ids ==> exists f :: f in facts && FitFactId(f) == id
  {
    if facts == [] then []
    else
      var init := DeliveryMembers(facts[..|facts| - 1], actors);
      var last := facts[|facts| - 1];
      if && last.path == DeliveryRelations && FitFactId(last) != ""
         && (if actors then last.member == Actor else last.member == Role || last.member.Action?) then
        init + [FitFactId(last)]
      else init
  }

  const TARGET_PATHS := [SupportTarget, Beneficiary]
  const CONDITION_PATHS := [EligibilityConditions, ParticipationRequirements, Exclusions]
  const MEANS_PATHS := [SupportActivities, SupportMethods, SupportItems]
  const EFFECT_PATHS := [ExpectedEffect, PerformanceIndicator]

  function PurposeAxes(r: Relation): (axes: set<PurposeAxis>) {
    match r
    case Fit1 => {TargetCondition}
    case Fit2 => {SpecificObjective, Direction}
    case Fit3 => {Direction}
    case _ => {}
  }

  function SidesOf(cpl: Cpl, r: Relation): (sides: Sides) {
    match r
    case Fit1 => Sides(PurposeSide(cpl.facts, PurposeAxes(Fit1)), SideAt(cpl.facts, TARGET_PATHS))
    case Fit2 => Sides(PurposeSide(cpl.facts, PurposeAxes(Fit2)), SideAt(cpl.facts, MEANS_PATHS))
    case Fit3 => Sides(PurposeSide(cpl.facts, PurposeAxes(Fit3)), SideAt(cpl.facts, EFFECT_PATHS))
    case Fit4 =>
      (match FitHierarchy.HierarchySides(cpl.facts)
       case Some(sides) => sides
       case None => Sides([], []))
    case Fit5 => Sides(SideAt(cpl.facts, TARGET_PATHS), SideAt(cpl.facts, CONDITION_PATHS))
    case Fit6 =>
      Sides(DeliveryMembers(cpl.facts, true), DeliveryMembers(cpl.facts, false) + IdsAt(cpl.facts, DeliveryMethods))
    case Fit7 => Sides(SideAt(cpl.facts, [SupportContent]), SideAt(cpl.facts, [SupportScale]))
  }

  predicate HasHierarchyFacts(cpl: Cpl) {
    exists f :: f in cpl.facts && f.path == HierarchyNodes
  }

  // ---------------------------------------------------------------- gates

  /** _gate */
  function Gate(sides: Sides, registry: set<string>): (reason: Option<string>) {
    if sides.left == [] || sides.right == [] then Some(Q.COMPARISON_EVIDENCE_MISSING)
    else if exists id :: id in sides.left && id in sides.right then Some(SELF_COMPARISON)
    else if exists id :: id in sides.left + sides.right && BaseId(id) !in registry then Some(EVIDENCE_REF_UNRESOLVED)
    else None
  }

  /** _fit5_reason */
  function Fit5Reason(statuses: seq<string>, left: Side): (reason: Option<string>) {
    if left == [] then Some(Q.COMPARISON_EVIDENCE_MISSING)
    else if "extraction_failed" in statuses || "mentioned_unresolved" in statuses then
      Some(Q.COMPARISON_EVIDENCE_MISSING)
    else if forall status :: status in statuses ==> status == "not_found" then Some(NO_CONDITIONS_SPECIFIED)
    else None
  }

  /** Why analyze_fit does not ask the model about a relation; None when it does. */
  function Withheld(cpl: Cpl, r: Relation): (reason: Option<string>) {
    var sides := SidesOf(cpl, r);
    var fit5 := if r == Fit5 then Fit5Reason(cpl.conditionStatuses, sides.left) else None;
    var reason := if fit5.Some? then fit5 else Gate(sides, Registry(cpl));
    if && reason == Some(Q.COMPARISON_EVIDENCE_MISSING) && r in {Fit1, Fit2, Fit3} && sides.right != []
       && sides.left == [] then
      Some(PURPOSE_AXIS_UNRESOLVED)
    else reason
  }

  // ---------------------------------------------------------------- the report

  datatype Outcome = Outcome(relation: Relation, status: Q.Status, reason: Option<string>, sides: Sides, used: Sides)

  function RefsAt(facts: seq<Fact>, path: Path): (refs: seq<Q.Ref>)
    ensures |refs| == |IdsAt(facts, path)|
    ensures forall i :: 0 <= i < |refs| ==> refs[i].factId == IdsAt(facts, path)[i]
  {
    if facts == [] then []
    else
      var init := RefsAt(facts[..|facts| - 1], path);
      var last := facts[|facts| - 1];
      if last.path == path && FitFactId(last) != "" then
        init + [Q.Ref(FitFactId(last), last.block, last.component, last.quantities)]
      else init
  }

  /** _fit7 cites both complete sides when it reaches a verdict and nothing otherwise. */
  function RuleOutcome(cpl: Cpl, status: Q.Status, reason: Option<string>): (o: Outcome) {
    var sides := SidesOf(cpl, Fit7);
    Outcome(Fit7, status, reason, sides, if status in {Q.Fit, Q.NeedsReview} then sides else Sides([], []))
  }

  ghost function Fit7Outcome(cpl: Cpl): (o: Outcome) {
    var (status, reason) := Q.Verdict(RefsAt(cpl.facts, SupportContent), RefsAt(cpl.facts, SupportScale));
    RuleOutcome(cpl, status, reason)
  }

  /** The relations the model is asked about, in the order the sides were put together. */
  const ASK_ORDER := [Fit1, Fit2, Fit3, Fit5, Fit6, Fit4]

  predicate Asked(cpl: Cpl, r: Relation) {
    r != Fit7 && (r == Fit4 ==> HasHierarchyFacts(cpl)) && Withheld(cpl, r).None?
  }

  function Pending(cpl: Cpl, order: seq<Relation>): (pending: seq<Relation>)
    ensures forall r :: r in pending <==> r in order && Asked(cpl, r)
  {
    if order == [] then []
    else
      var init := Pending(cpl, order[..|order| - 1]);
      if Asked(cpl, order[|order| - 1]) then init + [order[|order| - 1]] else init
  }

  function AllSides(cpl: Cpl): (sides: map<Relation, Sides>) {
    map r | r in RELATIONS :: SidesOf(cpl, r)
  }

  function Judgement(cpl: Cpl, model: Model, known: string -> bool, maxRepairs: int): (j: Judging)
  {
    assert forall r: Relation :: r in RELATIONS by { EveryRelation(); }
    Repair(model, AllSides(cpl), known, Pending(cpl, ASK_ORDER), map[], 0, maxRepairs, map[])
  }

  lemma EveryRelation()
    ensures forall r: Relation :: r in RELATIONS
  {
    forall r: Relation ensures r in RELATIONS {
      match r
      case Fit1 => assert RELATIONS[0] == r;
      case Fit2 => assert RELATIONS[1] == r;
      case Fit3 => assert RELATIONS[2] == r;
      case Fit4 => assert RELATIONS[3] == r;
      case Fit5 => assert RELATIONS[4] == r;
      case Fit6 => assert RELATIONS[5] == r;
      case Fit7 => assert RELATIONS[6] == r;
    }
  }

  /** A relation the model was not asked about. */
  function Unasked(cpl: Cpl, r: Relation): (o: Outcome)
    requires r != Fit7 && !Asked(cpl, r)
  {
    if r == Fit4 && !HasHierarchyFacts(cpl) then Outcome(Fit4, Q.NotApplicable, None, Sides([], []), Sides([], []))
    else Outcome(r, Q.Insufficient, Withheld(cpl, r), SidesOf(cpl, r), Sides([], []))
  }

  function FromVerdict(cpl: Cpl, r: Relation, v: Verdict): (o: Outcome) {
    Outcome(r, v.status, v.reason, SidesOf(cpl, r), Sides(v.left, v.right))
  }

  /** What the report says about one relation. */
  ghost function Reported(cpl: Cpl, model: Model, known: string -> bool, maxRepairs: int, r: Relation): (o: Outcome) {
    if r == Fit7 then Fit7Outcome(cpl)
    else if !Asked(cpl, r) then Unasked(cpl, r)
    else
      var verdicts := Judgement(cpl, model, known, maxRepairs).verdicts;
      FromVerdict(cpl, r, if r in verdicts then verdicts[r]
      else Verdict(Q.Insufficient, Some(LLM_INVALID_RESPONSE), [], []))
  }

  lemma OneMorePending(cpl: Cpl, order: seq<Relation>, i: nat)
    requires i < |order|
    ensures Pending(cpl, order[..i + 1])
            == if Asked(cpl, order[i]) then Pending(cpl, order[..i]) + [order[i]] else Pending(cpl, order[..i])
  {
    assert order[..i + 1][..i] == order[..i];
  }

  /** The gates: what is settled without the model, and what is left to ask. */
  method Screen(cpl: Cpl, order: seq<Relation>, settled: map<Relation, Outcome>)
    returns (results: map<Relation, Outcome>, pending: seq<Relation>)
    requires Fit7 !in order
    ensures pending == Pending(cpl, order)
    ensures forall r :: r in results <==> r in settled || (r in order && !Asked(cpl, r))
    ensures forall r :: r in results ==>
              results[r] == if r in order && !Asked(cpl, r) then Unasked(cpl, r) else settled[r]
  {
    hide Asked, Unasked;
    results, pending := settled, [];
    for i := 0 to |order|
      invariant pending == Pending(cpl, order[..i])
      invariant forall r :: r in results <==> r in settled || (r in order[..i] && !Asked(cpl, r))
      invariant forall r :: r in results ==>
                  results[r] == if r in order[..i] && !Asked(cpl, r) then Unasked(cpl, r) else settled[r]
    {
      hide Pending;
      var r := order[i];
      OneMorePending(cpl, order, i);
      assert forall q :: q in order[..i + 1] <==> q in order[..i] || q == r;
      if Asked(cpl, r) {
        pending := pending + [r];
      } else {
        results := results[r := Unasked(cpl, r)];
      }
    }
    assert order[..|order|] == order;
  }

  lemma AskOrderIsAllButFit7()
    ensures forall r :: r in ASK_ORDER <==> r != Fit7
  {
    assert ASK_ORDER[0] == Fit1 && ASK_ORDER[1] == Fit2 && ASK_ORDER[2] == Fit3;
    assert ASK_ORDER[3] == Fit5 && ASK_ORDER[4] == Fit6 && ASK_ORDER[5] == Fit4;
  }

  /** analyze_fit: always seven results, in the order of the relation enum. */
  method AnalyzeFit(cpl: Cpl, model: Model, known: string -> bool, maxRepairs: int) returns (report: seq<Outcome>)
    ensures |report| == |RELATIONS| == 7
    ensures forall i :: 0 <= i < 7 ==> report[i] == Reported(cpl, model, known, maxRepairs, RELATIONS[i])
  {
    hide Asked, Unasked, SidesOf, Pending, Repair, FromVerdict, RuleOutcome, IdsAt, RefsAt, Q.Verdict;
    EveryRelation();
    AskOrderIsAllButFit7();
    var status, reason := Q.Fit7(RefsAt(cpl.facts, SupportContent), RefsAt(cpl.facts, SupportScale));
    var fit7 := RuleOutcome(cpl, status, reason);
    var results, pending := Screen(cpl, ASK_ORDER, map[Fit7 := fit7]);
    var verdicts, _ := CompareRelations(model, pending, AllSides(cpl), known, maxRepairs);
    assert verdicts == Judgement(cpl, model, known, maxRepairs).verdicts;
    report := [];
    for i := 0 to |RELATIONS|
      invariant |report| == i
      invariant forall k :: 0 <= k < i ==> report[k] == Reported(cpl, model, known, maxRepairs, RELATIONS[k])
    {
      var r := RELATIONS[i];
      var verdict := if r in verdicts then verdicts[r] else Verdict(Q.Insufficient, Some(LLM_INVALID_RESPONSE), [], []);
      var outcome := if r in results then results[r] else FromVerdict(cpl, r, verdict);
      assert outcome == Reported(cpl, model, known, maxRepairs, r);
      report := report + [outcome];
    }
  }

  // ---------------------------------------------------------------- what the report may say

  predicate Decided(status: Q.Status) {
    status in {Q.Fit, Q.NeedsReview}
  }

  lemma RuleIsDecisive(cpl: Cpl)
    ensures Fit7Outcome(cpl).status != Q.NotApplicable
  {
  }

  /** NOT_APPLICABLE is said of FIT-4 without hierarchy facts, and of nothing else. */
  lemma NotApplicableExactly(cpl: Cpl, model: Model, known: string -> bool, maxRepairs: int, r: Relation)
    ensures Reported(cpl, model, known, maxRepairs, r).status == Q.NotApplicable
            <==> r == Fit4 && !HasHierarchyFacts(cpl)
  {
    hide Judgement, Withheld, SidesOf, Fit7Outcome, HasHierarchyFacts, FirstAccepted, ValidateVerdict;
    if r == Fit7 {
      assert Fit7Outcome(cpl).status != Q.NotApplicable by { RuleIsDecisive(cpl); }
    } else if Asked(cpl, r) {
      AskedIsJudged(cpl, model, known, maxRepairs, r);
    }
  }

  /** A relation that was asked got its verdict from the first acceptable reply. */
  lemma AskedIsJudged(cpl: Cpl, model: Model, known: string -> bool, maxRepairs: int, r: Relation)
    requires Asked(cpl, r)
    ensures var j := Judgement(cpl, model, known, maxRepairs);
            && r in j.verdicts
            && FirstAccepted(j.replies, r, SidesOf(cpl, r), known, j.verdicts[r])
            && (j.verdicts[r].status == Q.Insufficient
                || exists row: Row :: ValidateVerdict(row, SidesOf(cpl, r), known) == Ok(j.verdicts[r]))
            && j.verdicts[r].status != Q.NotApplicable
  {
    hide SidesOf, Withheld, Repair, Pending, HasHierarchyFacts, ValidateVerdict, OnlyOneNames, Judge;
    EveryRelation();
    AskOrderIsAllButFit7();
    VerdictIsFirstAccepted(model, AllSides(cpl), known, Pending(cpl, ASK_ORDER), map[], 0, maxRepairs, map[], r);
    var j := Judgement(cpl, model, known, maxRepairs);
    if k :| 0 <= k < |j.replies| && JudgedAt(j.replies[k], r, SidesOf(cpl, r), known) == Ok(j.verdicts[r]) {
      var row := AcceptedRow(j.replies[k], r, SidesOf(cpl, r), known, j.verdicts[r]);
      assert ValidateVerdict(row, SidesOf(cpl, r), known) == Ok(j.verdicts[r]);
    }
  }

  lemma AcceptedRow(reply: Reply, r: Relation, sides: Sides, known: string -> bool, v: Verdict) returns (row: Row)
    requires JudgedAt(reply, r, sides, known) == Ok(v)
    ensures ValidateVerdict(row, sides, known) == Ok(v) && v.status != Q.NotApplicable
  {
    var rows := Readable(reply).value;
    AcceptedExactly(rows, r, sides, known, v);
    var i: nat :| OnlyOneNames(rows, r, i) && rows[i].row.Some?
         && ValidateVerdict(rows[i].row.value, sides, known) == Ok(v);
    row := rows[i].row.value;
  }

  ghost predicate GroundedOutcome(o: Outcome, sides: Sides, registry: set<string>) {
    && o.sides == sides
    && o.used.left != [] && o.used.right != []
    && (forall id :: id in o.used.left ==> id in sides.left && id !in o.used.right && BaseId(id) in registry)
    && (forall id :: id in o.used.right ==> id in sides.right && id !in o.used.left && BaseId(id) in registry)
  }

  /** A verdict of the model other than INSUFFICIENT cites at least one id per side, only from that
      side; the two sets are disjoint, and every cited id resolves to a CPL id. */
  lemma DecidedVerdictsAreGrounded(cpl: Cpl, model: Model, known: string -> bool, maxRepairs: int, r: Relation)
    requires r != Fit7
    ensures Decided(Reported(cpl, model, known, maxRepairs, r).status) ==>
              GroundedOutcome(Reported(cpl, model, known, maxRepairs, r), SidesOf(cpl, r), Registry(cpl))
  {
    hide SidesOf, Judgement, Registry, FirstAccepted;
    if Decided(Reported(cpl, model, known, maxRepairs, r).status) {
      AskedIsJudged(cpl, model, known, maxRepairs, r);
      var v := Judgement(cpl, model, known, maxRepairs).verdicts[r];
      var sides := SidesOf(cpl, r);
      var row: Row :| ValidateVerdict(row, sides, known) == Ok(v);
      ValidVerdictsAreGrounded(row, sides, known);
      GateMeans(sides, Registry(cpl));
    }
  }

  lemma GateMeans(sides: Sides, registry: set<string>)
    requires Gate(sides, registry).None?
    ensures forall id :: id in sides.left ==> id !in sides.right && BaseId(id) in registry
    ensures forall id :: id in sides.right ==> id !in sides.left && BaseId(id) in registry
  {
    forall id | id in sides.left || id in sides.right ensures BaseId(id) in registry {
      assert id in sides.left + sides.right;
    }
  }

  /** What the gates settle, and FIT-7, is the same whatever the model would have answered. */
  lemma SettledWithoutTheModel(cpl: Cpl, one: Model, other: Model, known: string -> bool, maxRepairs: int, r: Relation)
    requires r == Fit7 || !Asked(cpl, r)
    ensures Reported(cpl, one, known, maxRepairs, r) == Reported(cpl, other, known, maxRepairs, r)
    ensures r != Fit7 ==> !Decided(Reported(cpl, one, known, maxRepairs, r).status)
  {
    hide SidesOf, Withheld;
  }

  /** The gate can call an id of the CPL's own facts unresolved only if the id, up to the place
      inside a delivery relation, contains a dot. */
  lemma OnlyDottedIdsAreUnresolved(cpl: Cpl, f: Fact)
    requires f in cpl.facts && FitFactId(f) != "" && BaseId(FitFactId(f)) !in Registry(cpl)
    ensures '.' in f.relationId || '.' in f.factId || '.' in f.evidenceRef
  {
    hide Registry, BaseId;
    Registered(cpl, f);
    if f.relationId == "" || f.member.NoMember? || (f.member.Action? && f.member.index.None?) {
      var id := FitFactId(f);
      assert id == f.factId || id == f.evidenceRef;
      hide FitFactId;
      UndottedIsItsOwnBase(id);
    } else if '.' !in f.relationId {
      var place := if f.member.Actor? then "actor" else if f.member.Role? then "role"
        else "actions[" + Numerals.Digits(f.member.index.value) + "]";
      assert FitFactId(f) == f.relationId + "." + place;
      hide FitFactId;
      BaseOfSuffixed(f.relationId, place);
    }
  }

  lemma {:induction false} UndottedIsItsOwnBase(id: string)
    ensures BaseId(id) == id || '.' in id
  {
    var base := BaseId(id);
    if base + "." <= id {
      assert id[|base|] == (base + ".")[|base|] == '.';
    }
  }

  lemma Registered(cpl: Cpl, f: Fact)
    requires f in cpl.facts
    ensures f.factId != "" ==> f.factId in Registry(cpl)
    ensures f.relationId != "" ==> f.relationId in Registry(cpl)
    ensures FitFactId(f) != "" ==> FitFactId(f) in Registry(cpl)
  {
    hide FitFactId;
  }

  lemma {:induction false} BaseOfSuffixed(base: string, suffix: string)
    requires '.' !in base
    ensures BaseId(base + "." + suffix) == base
  {
    if base != "" {
      BaseOfSuffixed(base[1..], suffix);
      assert (base + "." + suffix)[1..] == base[1..] + "." + suffix;
    }
  }

  /** Where a node with an id stands on both sides of the hierarchy, the gate refuses FIT-4 and the
      model is not asked. */
  lemma SharedNodeIsRefused(cpl: Cpl, n: Fact)
    requires n in FitHierarchy.NodesById(cpl.facts) && FitFactId(n) != ""
    requires FitHierarchy.OnBothSides(cpl.facts, n.node)
    ensures Gate(SidesOf(cpl, Fit4), Registry(cpl)) == Some(SELF_COMPARISON)
    ensures Withheld(cpl, Fit4) == Some(SELF_COMPARISON) && !Asked(cpl, Fit4)
  {
    hide FitHierarchy.NodesById, FitHierarchy.OnBothSides, FitHierarchy.HierarchySides, FitFactId, Registry;
    FitHierarchy.SharedNodeHasItsIdOnBoth(cpl.facts, n.node, n);
    var sides := SidesOf(cpl, Fit4);
    assert FitFactId(n) in sides.left && FitFactId(n) in sides.right;
  }
}

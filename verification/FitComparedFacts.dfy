/** Which facts each relation compares and what the report says of it, read off the facts
    (backend/worker/fit.py). The definitions of the other FIT modules follow the code; the
    statements here are about the CPL facts, their fields and the published reason codes. */
module FitComparedFacts {
  import opened Wrappers
  import opened FitFacts
  import opened J = FitJudging
  import opened R = FitReport
  import FitHierarchy
  import Numerals
  import PyText
  import Q = FitQuantities

  // ---------------------------------------------------------------- facts in order

  /** The positions of the facts to keep, those without a FIT id left out. */
  function Picked(facts: seq<Fact>, keep: Fact -> bool): (at: seq<nat>) {
    if facts == [] then []
    else
      var (init, n) := (Picked(facts[..|facts| - 1], keep), |facts| - 1);
      if keep(facts[n]) && FitFactId(facts[n]) != "" then init + [n] else init
  }

  /** Exactly the kept facts with an id, each once, in the order of the facts. */
  lemma {:induction false} PickedExactly(facts: seq<Fact>, keep: Fact -> bool)
    ensures var at := Picked(facts, keep);
            && (forall i :: 0 <= i < |facts| ==> (i in at <==> keep(facts[i]) && FitFactId(facts[i]) != ""))
            && (forall k :: 0 <= k < |at| ==> at[k] < |facts|)
            && (forall k, l :: 0 <= k < l < |at| ==> at[k] < at[l])
  {
    hide FitFactId;
    if facts != [] {
      var n := |facts| - 1;
      PickedExactly(facts[..n], keep);
      var (init, at) := (Picked(facts[..n], keep), Picked(facts, keep));
      assert forall i :: i in init ==> 0 <= i < n;
      forall i | 0 <= i < |facts| ensures i in at <==> keep(facts[i]) && FitFactId(facts[i]) != "" {
        if i < n {
          assert facts[..n][i] == facts[i];
        }
      }
    }
  }

  /** The ids of the kept facts. */
  function Ids(facts: seq<Fact>, keep: Fact -> bool): (ids: Side)
    ensures |ids| == |Picked(facts, keep)|
  {
    PickedExactly(facts, keep);
    seq(|Picked(facts, keep)|, k requires 0 <= k < |Picked(facts, keep)| => FitFactId(facts[Picked(facts, keep)[k]]))
  }

  lemma IdsExactly(facts: seq<Fact>, keep: Fact -> bool, id: string)
    ensures id in Ids(facts, keep) <==> id != "" && exists f :: f in facts && keep(f) && FitFactId(f) == id
  {
    PickedExactly(facts, keep);
    hide FitFactId, Picked;
    var at := Picked(facts, keep);
    if k :| 0 <= k < |at| && Ids(facts, keep)[k] == id {
      assert at[k] in at;
      var i := at[k];
      assert 0 <= i < |facts| && keep(facts[i]);
      assert facts[i] in facts;
    }
    if id != "" {
      if f :| f in facts && keep(f) && FitFactId(f) == id {
        var i :| 0 <= i < |facts| && facts[i] == f;
        assert i in at;
        var k :| 0 <= k < |at| && at[k] == i;
        assert Ids(facts, keep)[k] == id;
      }
    }
  }

  lemma OneMorePicked(facts: seq<Fact>, keep: Fact -> bool)
    requires facts != []
    ensures var last := facts[|facts| - 1];
            Ids(facts, keep) == Ids(facts[..|facts| - 1], keep)
                                + (if keep(last) && FitFactId(last) != "" then [FitFactId(last)] else [])
  {
    hide FitFactId;
    var n := |facts| - 1;
    PickedExactly(facts[..n], keep);
    assert forall k :: 0 <= k < |Picked(facts[..n], keep)| ==> Ids(facts[..n], keep)[k] == Ids(facts, keep)[k];
  }

  function At(path: Path): (keep: Fact -> bool) { (f: Fact) => f.path == path }

  lemma {:induction false} FieldInOrder(facts: seq<Fact>, path: Path)
    ensures IdsAt(facts, path) == Ids(facts, At(path))
  {
    hide FitFactId;
    if facts != [] {
      FieldInOrder(facts[..|facts| - 1], path);
      OneMorePicked(facts, At(path));
    }
  }

  /** A fact of purpose_goal that CPL put on one of these axes. */
  function OnAxis(axes: set<PurposeAxis>): (keep: Fact -> bool) {
    (f: Fact) => f.path == PurposeGoal && f.axis.Some? && f.axis.value in axes
  }

  function DeliveryActor(): (keep: Fact -> bool) {
    (f: Fact) => f.path == DeliveryRelations && f.member == Actor
  }

  function DeliveryRoleOrAction(): (keep: Fact -> bool) {
    (f: Fact) => f.path == DeliveryRelations && (f.member == Role || f.member.Action?)
  }

  lemma {:induction false} AxesInOrder(facts: seq<Fact>, axes: set<PurposeAxis>)
    ensures PurposeSide(facts, axes) == Ids(facts, OnAxis(axes))
  {
    hide FitFactId;
    if facts != [] {
      AxesInOrder(facts[..|facts| - 1], axes);
      OneMorePicked(facts, OnAxis(axes));
    }
  }

  lemma {:induction false} MembersInOrder(facts: seq<Fact>)
    ensures DeliveryMembers(facts, true) == Ids(facts, DeliveryActor())
    ensures DeliveryMembers(facts, false) == Ids(facts, DeliveryRoleOrAction())
  {
    hide FitFactId;
    if facts != [] {
      MembersInOrder(facts[..|facts| - 1]);
      OneMorePicked(facts, DeliveryActor());
      OneMorePicked(facts, DeliveryRoleOrAction());
    }
  }

  // ---------------------------------------------------------------- the sides of a relation

  lemma TwoFields(facts: seq<Fact>, a: Path, b: Path)
    ensures SideAt(facts, [a, b]) == Ids(facts, At(a)) + Ids(facts, At(b))
  {
    FieldInOrder(facts, a);
    FieldInOrder(facts, b);
    hide IdsAt, Ids;
    assert [a, b][..1] == [a] && [a][..0] == [];
    assert SideAt(facts, [a]) == SideAt(facts, []) + IdsAt(facts, a);
    assert [] + IdsAt(facts, a) == IdsAt(facts, a);
  }

  lemma ThreeFields(facts: seq<Fact>, a: Path, b: Path, c: Path)
    ensures SideAt(facts, [a, b, c]) == Ids(facts, At(a)) + Ids(facts, At(b)) + Ids(facts, At(c))
  {
    TwoFields(facts, a, b);
    FieldInOrder(facts, c);
    hide IdsAt, Ids;
    assert [a, b, c][..2] == [a, b];
  }

  lemma OneField(facts: seq<Fact>, a: Path)
    ensures SideAt(facts, [a]) == Ids(facts, At(a))
  {
    FieldInOrder(facts, a);
    hide IdsAt, Ids;
    assert [a][..0] == [];
    assert SideAt(facts, [a]) == [] + IdsAt(facts, a) == IdsAt(facts, a);
  }

  /** What the two sides of a relation are made of, in order; FIT-4 is told in HierarchySidesExactly. */
  lemma SidesInOrder(cpl: Cpl)
    ensures var facts := cpl.facts;
            && SidesOf(cpl, Fit1) == Sides(Ids(facts, OnAxis({TargetCondition})),
                                           Ids(facts, At(SupportTarget)) + Ids(facts, At(Beneficiary)))
            && SidesOf(cpl, Fit2) == Sides(Ids(facts, OnAxis({SpecificObjective, Direction})),
                                           Ids(facts, At(SupportActivities)) + Ids(facts, At(SupportMethods))
                                           + Ids(facts, At(SupportItems)))
            && SidesOf(cpl, Fit3) == Sides(Ids(facts, OnAxis({Direction})),
                                           Ids(facts, At(ExpectedEffect)) + Ids(facts, At(PerformanceIndicator)))
            && SidesOf(cpl, Fit5) == Sides(Ids(facts, At(SupportTarget)) + Ids(facts, At(Beneficiary)),
                                           Ids(facts, At(EligibilityConditions))
                                             + Ids(facts, At(ParticipationRequirements))
                                           + Ids(facts, At(Exclusions)))
            && SidesOf(cpl, Fit6) == Sides(Ids(facts, DeliveryActor()),
                                           Ids(facts, DeliveryRoleOrAction()) + Ids(facts, At(DeliveryMethods)))
            && SidesOf(cpl, Fit7) == Sides(Ids(facts, At(SupportContent)), Ids(facts, At(SupportScale)))
  {
    AxesInOrder(cpl.facts, {TargetCondition});
    AxesInOrder(cpl.facts, {SpecificObjective, Direction});
    AxesInOrder(cpl.facts, {Direction});
    TwoFields(cpl.facts, SupportTarget, Beneficiary);
    ThreeFields(cpl.facts, SupportActivities, SupportMethods, SupportItems);
    TwoFields(cpl.facts, ExpectedEffect, PerformanceIndicator);
    ThreeFields(cpl.facts, EligibilityConditions, ParticipationRequirements, Exclusions);
    MembersInOrder(cpl.facts);
    FieldInOrder(cpl.facts, DeliveryMethods);
    OneField(cpl.facts, SupportContent);
    OneField(cpl.facts, SupportScale);
    hide IdsAt, SideAt, PurposeSide, DeliveryMembers, Ids, OnAxis, At, FitHierarchy.HierarchySides;
  }

  /** The fields, purpose axes and delivery members on the left of a relation ... */
  predicate OnLeft(r: Relation, f: Fact) {
    match r
    case Fit1 => f.path == PurposeGoal && f.axis == Some(TargetCondition)
    case Fit2 => f.path == PurposeGoal && (f.axis == Some(SpecificObjective) || f.axis == Some(Direction))
    case Fit3 => f.path == PurposeGoal && f.axis == Some(Direction)
    case Fit4 => false
    case Fit5 => f.path == SupportTarget || f.path == Beneficiary
    case Fit6 => f.path == DeliveryRelations && f.member == Actor
    case Fit7 => f.path == SupportContent
  }

  /** ... and on its right. */
  predicate OnRight(r: Relation, f: Fact) {
    match r
    case Fit1 => f.path == SupportTarget || f.path == Beneficiary
    case Fit2 => f.path == SupportActivities || f.path == SupportMethods || f.path == SupportItems
    case Fit3 => f.path == ExpectedEffect || f.path == PerformanceIndicator
    case Fit4 => false
    case Fit5 => f.path == EligibilityConditions || f.path == ParticipationRequirements || f.path == Exclusions
    case Fit6 => f.path == DeliveryMethods || (f.path == DeliveryRelations && (f.member == Role || f.member.Action?))
    case Fit7 => f.path == SupportScale
  }

  /** The id belongs to a fact at a place. */
  ghost predicate Stands(facts: seq<Fact>, place: Fact -> bool, id: string) {
    id != "" && exists f :: f in facts && place(f) && FitFactId(f) == id
  }

  lemma OnePart(facts: seq<Fact>, place: Fact -> bool, a: Fact -> bool, id: string)
    requires forall f :: place(f) <==> a(f)
    ensures id in Ids(facts, a) <==> Stands(facts, place, id)
  {
    IdsExactly(facts, a, id);
    hide Ids, FitFactId;
  }

  lemma TwoParts(facts: seq<Fact>, place: Fact -> bool, a: Fact -> bool, b: Fact -> bool, id: string)
    requires forall f :: place(f) <==> a(f) || b(f)
    ensures id in Ids(facts, a) + Ids(facts, b) <==> Stands(facts, place, id)
  {
    IdsExactly(facts, a, id);
    IdsExactly(facts, b, id);
    hide Ids, FitFactId;
  }

  lemma ThreeParts(facts: seq<Fact>, place: Fact -> bool, a: Fact -> bool, b: Fact -> bool, c: Fact -> bool, id: string)
    requires forall f :: place(f) <==> a(f) || b(f) || c(f)
    ensures id in Ids(facts, a) + Ids(facts, b) + Ids(facts, c) <==> Stands(facts, place, id)
  {
    IdsExactly(facts, a, id);
    IdsExactly(facts, b, id);
    IdsExactly(facts, c, id);
    hide Ids, FitFactId;
  }

  lemma LeftExactly(cpl: Cpl, r: Relation, id: string)
    requires r != Fit4
    ensures id in SidesOf(cpl, r).left <==> Stands(cpl.facts, (f: Fact) => OnLeft(r, f), id)
  {
    SidesInOrder(cpl);
    hide SidesOf, Ids, Stands;
    var (facts, place) := (cpl.facts, (f: Fact) => OnLeft(r, f));
    AxisPlaces();
    hide OnAxis;
    match r
    case Fit1 => OnePart(facts, place, OnAxis({TargetCondition}), id);
    case Fit2 => OnePart(facts, place, OnAxis({SpecificObjective, Direction}), id);
    case Fit3 => OnePart(facts, place, OnAxis({Direction}), id);
    case Fit5 => TwoParts(facts, place, At(SupportTarget), At(Beneficiary), id);
    case Fit6 => OnePart(facts, place, DeliveryActor(), id);
    case Fit7 => OnePart(facts, place, At(SupportContent), id);
  }

  lemma AxisPlaces()
    ensures forall f :: OnAxis({TargetCondition})(f) <==> OnLeft(Fit1, f)
    ensures forall f :: OnAxis({SpecificObjective, Direction})(f) <==> OnLeft(Fit2, f)
    ensures forall f :: OnAxis({Direction})(f) <==> OnLeft(Fit3, f)
  {
  }

  lemma RightOfThree(cpl: Cpl, r: Relation, id: string)
    requires r == Fit2 || r == Fit5
    ensures id in SidesOf(cpl, r).right <==> Stands(cpl.facts, (f: Fact) => OnRight(r, f), id)
  {
    SidesInOrder(cpl);
    hide SidesOf, Ids, Stands;
    var (facts, place) := (cpl.facts, (f: Fact) => OnRight(r, f));
    if r == Fit2 {
      ThreeParts(facts, place, At(SupportActivities), At(SupportMethods), At(SupportItems), id);
    } else {
      ThreeParts(facts, place, At(EligibilityConditions), At(ParticipationRequirements), At(Exclusions), id);
    }
  }

  lemma RightExactly(cpl: Cpl, r: Relation, id: string)
    requires r != Fit4
    ensures id in SidesOf(cpl, r).right <==> Stands(cpl.facts, (f: Fact) => OnRight(r, f), id)
  {
    SidesInOrder(cpl);
    hide SidesOf, Ids, Stands;
    var (facts, place) := (cpl.facts, (f: Fact) => OnRight(r, f));
    match r
    case Fit1 => TwoParts(facts, place, At(SupportTarget), At(Beneficiary), id);
    case Fit2 => RightOfThree(cpl, r, id);
    case Fit3 => TwoParts(facts, place, At(ExpectedEffect), At(PerformanceIndicator), id);
    case Fit5 => RightOfThree(cpl, r, id);
    case Fit6 => TwoParts(facts, place, DeliveryRoleOrAction(), At(DeliveryMethods), id);
    case Fit7 => OnePart(facts, place, At(SupportScale), id);
  }

  /** An id is on a side exactly when a fact with that id stands at a place of that side. */
  lemma SidesExactly(cpl: Cpl, r: Relation, id: string)
    requires r != Fit4
    ensures id in SidesOf(cpl, r).left <==> id != "" && exists f :: f in cpl.facts && OnLeft(r, f) && FitFactId(f) == id
    ensures id in SidesOf(cpl, r).right
            <==> id != "" && exists f :: f in cpl.facts && OnRight(r, f) && FitFactId(f) == id
  {
    LeftExactly(cpl, r, id);
    RightExactly(cpl, r, id);
    hide SidesOf, OnLeft, OnRight, FitFactId;
  }

  /** The references that FIT-7 compares: per fact of the field its id, its first evidence block,
      its component and its quantities, in the order of the facts. */
  lemma {:induction false} ReferencesInOrder(facts: seq<Fact>, path: Path)
    ensures var (refs, at) := (RefsAt(facts, path), Picked(facts, At(path)));
            |refs| == |at| && forall k :: 0 <= k < |at| ==>
              at[k] < |facts|
              && refs[k]
                 == Q.Ref(FitFactId(facts[at[k]]), facts[at[k]].block, facts[at[k]].component, facts[at[k]].quantities)
  {
    hide FitFactId, IdsAt;
    PickedExactly(facts, At(path));
    if facts != [] {
      PickedExactly(facts[..|facts| - 1], At(path));
      ReferencesInOrder(facts[..|facts| - 1], path);
    }
  }

  // ---------------------------------------------------------------- why the model is not asked

  ghost predicate OneSided(sides: Sides) {
    sides.left == [] || sides.right == []
  }

  ghost predicate Overlaps(sides: Sides) {
    exists id :: id in sides.left && id in sides.right
  }

  /** An id of the CPL: of a fact, of a delivery relation, or the FIT id of a fact. */
  ghost predicate KnownId(cpl: Cpl, id: string) {
    id != "" && exists f :: f in cpl.facts && (f.factId == id || f.relationId == id || FitFactId(f) == id)
  }

  ghost predicate Dangling(cpl: Cpl, sides: Sides) {
    exists id :: (id in sides.left || id in sides.right) && !KnownId(cpl, BaseId(id))
  }

  /** The condition fields were read: none failed, and at least one says something. */
  ghost predicate ConditionsRead(cpl: Cpl) {
    && "extraction_failed" !in cpl.conditionStatuses && "mentioned_unresolved" !in cpl.conditionStatuses
    && exists status :: status in cpl.conditionStatuses && status != "not_found"
  }

  ghost predicate ConditionsAbsent(cpl: Cpl) {
    forall status :: status in cpl.conditionStatuses ==> status == "not_found"
  }

  lemma RegistryExactly(cpl: Cpl, id: string)
    ensures id in Registry(cpl) <==> KnownId(cpl, id)
  {
    hide FitFactId;
  }

  lemma GateExactly(cpl: Cpl, sides: Sides)
    ensures Gate(sides, Registry(cpl))
         == if OneSided(sides) then Some("COMPARISON_EVIDENCE_MISSING")
            else if Overlaps(sides) then Some("SELF_COMPARISON")
            else if Dangling(cpl, sides) then Some("EVIDENCE_REF_UNRESOLVED")
            else None
  {
    hide Registry, KnownId, BaseId;
    forall id ensures id in Registry(cpl) <==> KnownId(cpl, id) {
      RegistryExactly(cpl, id);
    }
  }

  /** The published reason for every relation that is not asked, whatever its sides are: FIT-5 looks
      at the status of the conditions first, FIT-1 to FIT-3 name an unresolved purpose axis. */
  lemma ReasonsExactly(cpl: Cpl, r: Relation)
    ensures var sides := SidesOf(cpl, r);
            && (Withheld(cpl, r) == None <==>
                  !OneSided(sides) && !Overlaps(sides) && !Dangling(cpl, sides) && (r == Fit5 ==> ConditionsRead(cpl)))
            && (Withheld(cpl, r) == Some("PURPOSE_AXIS_UNRESOLVED") <==>
                  (r == Fit1 || r == Fit2 || r == Fit3) && sides.left == [] && sides.right != [])
            && (Withheld(cpl, r) == Some("NO_CONDITIONS_SPECIFIED") <==>
                  r == Fit5 && sides.left != [] && ConditionsAbsent(cpl))
            && (Withheld(cpl, r) == Some("SELF_COMPARISON") <==>
                  !OneSided(sides) && Overlaps(sides) && (r == Fit5 ==> ConditionsRead(cpl)))
            && (Withheld(cpl, r) == Some("EVIDENCE_REF_UNRESOLVED") <==>
                  !OneSided(sides) && !Overlaps(sides) && Dangling(cpl, sides) && (r == Fit5 ==> ConditionsRead(cpl)))
            && (Withheld(cpl, r) == Some("COMPARISON_EVIDENCE_MISSING") <==>
                  if r == Fit5 then sides.left == [] || (!ConditionsAbsent(cpl) && !ConditionsRead(cpl))
                                    || (sides.right == [] && ConditionsRead(cpl))
                  else OneSided(sides)
                       && !(r != Fit4 && r != Fit6 && r != Fit7 && sides.left == [] && sides.right != []))
  {
    var sides := SidesOf(cpl, r);
    GateExactly(cpl, sides);
    hide SidesOf, Gate, Overlaps, Dangling;
  }

  // ---------------------------------------------------------------- what the report says

  /** A relation that is not asked: FIT-4 without hierarchy facts does not apply; any other is
      INSUFFICIENT for its reason, shows its sides and cites nothing. */
  lemma SettledExactly(cpl: Cpl, model: Model, known: string -> bool, maxRepairs: int, r: Relation)
    requires r != Fit7
    ensures var o := Reported(cpl, model, known, maxRepairs, r);
            if r == Fit4 && forall f :: f in cpl.facts ==> f.path != HierarchyNodes then
              o == Outcome(Fit4, Q.NotApplicable, None, Sides([], []), Sides([], []))
            else Withheld(cpl, r).Some? ==>
              o == Outcome(r, Q.Insufficient, Withheld(cpl, r), SidesOf(cpl, r), Sides([], []))
  {
    hide SidesOf, Withheld, Judgement;
  }

  /** A relation that is asked has the verdict of the first acceptable reply, with its citations. */
  lemma JudgedExactly(cpl: Cpl, model: Model, known: string -> bool, maxRepairs: int, r: Relation)
    requires r != Fit7 && Withheld(cpl, r).None?
             && (r == Fit4 ==> exists f :: f in cpl.facts && f.path == HierarchyNodes)
    ensures var o := Reported(cpl, model, known, maxRepairs, r);
            var v := Verdict(o.status, o.reason, o.used.left, o.used.right);
            && o.relation == r && o.sides == SidesOf(cpl, r)
            && FirstAccepted(Judgement(cpl, model, known, maxRepairs).replies, r, SidesOf(cpl, r), known, v)
  {
    AskedIsJudged(cpl, model, known, maxRepairs, r);
    hide SidesOf, Withheld, Judgement, FirstAccepted, ValidateVerdict;
  }

  /** FIT-7 reports the rule's verdict on the two fields, and cites both whole sides exactly when it
      reached one. */
  lemma RuleExactly(cpl: Cpl, model: Model, known: string -> bool, maxRepairs: int)
    ensures var o := Reported(cpl, model, known, maxRepairs, Fit7);
            var sides := Sides(Ids(cpl.facts, At(SupportContent)), Ids(cpl.facts, At(SupportScale)));
            && o.relation == Fit7 && o.sides == sides
            && (o.status, o.reason) == Q.Verdict(RefsAt(cpl.facts, SupportContent), RefsAt(cpl.facts, SupportScale))
            && o.used == if o.status == Q.Fit || o.status == Q.NeedsReview then sides else Sides([], [])
  {
    SidesInOrder(cpl);
    hide SidesOf, Ids, RefsAt, Q.Verdict;
  }

  // ---------------------------------------------------------------- FIT ids

  /** The place of a delivery member inside its relation. */
  function PlaceInRelation(member: Member): (place: string) {
    match member
    case Actor => "actor"
    case Role => "role"
    case Action(Some(index)) => "actions[" + Numerals.Digits(index) + "]"
    case _ => ""
  }

  /** Delivery members are named by their place in the relation, and cutting the place off leads
      back to the relation; other facts keep their own id, or the reference of their region. */
  lemma IdsOfFacts(f: Fact)
    ensures f.relationId != "" && PlaceInRelation(f.member) != "" ==>
              && FitFactId(f) == f.relationId + "." + PlaceInRelation(f.member)
              && ('.' !in f.relationId ==> BaseId(FitFactId(f)) == f.relationId)
    ensures f.relationId == "" || PlaceInRelation(f.member) == "" ==>
              FitFactId(f) == if f.factId != "" then f.factId else f.evidenceRef
  {
    var (relation, place) := (f.relationId, PlaceInRelation(f.member));
    if relation != "" && place != "" {
      assert FitFactId(f) == relation + "." + place by { hide BaseId; }
      hide FitFactId, PlaceInRelation, BaseId;
      if '.' !in relation {
        BaseOfSuffixed(relation, place);
      }
    }
  }

  // ---------------------------------------------------------------- the sides of FIT-4

  /** The first fact of the hierarchy with this node id and a readable name. */
  ghost predicate FirstNode(facts: seq<Fact>, n: Fact) {
    exists i :: 0 <= i < |facts| && facts[i] == n && IsNode(n) && forall j :: 0 <= j < i && IsNode(facts[j]) ==>
      facts[j].node != n.node
  }

  predicate IsNode(f: Fact) {
    f.path == HierarchyNodes && f.node != "" && f.readable
  }

  ghost predicate Seen(facts: seq<Fact>, id: string) {
    exists j :: 0 <= j < |facts| && IsNode(facts[j]) && facts[j].node == id
  }

  lemma FirstNodeStep(facts: seq<Fact>, last: Fact, n: Fact)
    ensures FirstNode(facts + [last], n)
            <==> FirstNode(facts, n) || (n == last && IsNode(last) && !Seen(facts, last.node))
  {
    var all := facts + [last];
    if FirstNode(facts, n) {
      var i :| 0 <= i < |facts| && facts[i] == n && IsNode(n) && forall j :: 0 <= j < i && IsNode(facts[j]) ==>
           facts[j].node != n.node;
      assert all[i] == n && forall j :: 0 <= j < i ==> all[j] == facts[j];
    }
    if n == last && IsNode(last) && !Seen(facts, last.node) {
      assert all[|facts|] == n && forall j :: 0 <= j < |facts| ==> all[j] == facts[j];
    }
    if FirstNode(all, n) {
      var i :| 0 <= i < |all| && all[i] == n && IsNode(n) && forall j :: 0 <= j < i && IsNode(all[j]) ==>
           all[j].node != n.node;
      assert forall j :: 0 <= j < |facts| ==> all[j] == facts[j];
    }
  }

  lemma SeenExactly(facts: seq<Fact>, id: string)
    ensures FitHierarchy.HasNode(FitHierarchy.NodesById(facts), id) <==> Seen(facts, id)
  {
    if j :| 0 <= j < |facts| && IsNode(facts[j]) && facts[j].node == id {
      FitHierarchy.EveryReadableNodeIsThere(facts, facts[j]);
    }
  }

  lemma {:induction false} NodesExactly(facts: seq<Fact>, n: Fact)
    ensures n in FitHierarchy.NodesById(facts) <==> FirstNode(facts, n)
  {
    if facts != [] {
      var (init, last) := (facts[..|facts| - 1], facts[|facts| - 1]);
      NodesExactly(init, n);
      assert facts == init + [last];
      FirstNodeStep(init, last, n);
      SeenExactly(init, last.node);
      hide FirstNode, Seen, FitHierarchy.HasNode;
    }
  }

  /** An edge joins two nodes one of which names the other as its parent. */
  lemma EdgesExactly(facts: seq<Fact>, e: FitHierarchy.Edge)
    ensures e in FitHierarchy.InputEdges(facts) <==>
              FirstNode(facts, e.parent) && FirstNode(facts, e.child) && e.child.parent == e.parent.node
  {
    var nodes := FitHierarchy.NodesById(facts);
    NodesExactly(facts, e.parent);
    NodesExactly(facts, e.child);
    hide FirstNode, FitHierarchy.NodesById;
    if e.parent in nodes && e.child in nodes && e.child.parent == e.parent.node {
      assert FitHierarchy.HasNode(nodes, e.child.parent);
      var found := FitHierarchy.EdgeTo(nodes, e.child);
      FitHierarchy.SameIdSameNode(facts, found.parent, e.parent);
    }
  }

  /** Compared are the edges under a parent of the highest known level, or all where none is known. */
  ghost predicate Compared(facts: seq<Fact>, e: FitHierarchy.Edge) {
    && e in FitHierarchy.InputEdges(facts)
    && forall other :: other in FitHierarchy.InputEdges(facts) && other.parent.level.Some? ==>
         e.parent.level.Some? && e.parent.level.value <= other.parent.level.value
  }

  lemma ComparedExactly(facts: seq<Fact>, e: FitHierarchy.Edge)
    ensures e in FitHierarchy.SelectedEdges(facts) <==> Compared(facts, e)
  {
    var edges := FitHierarchy.InputEdges(facts);
    FitHierarchy.SelectedExactly(edges, e);
    hide FitHierarchy.InputEdges, FitHierarchy.Selected;
  }

  /** A fact attached to a node of the programme, at one of the seven places that FIT-4 admits. */
  function Attached(node: string): (keep: Fact -> bool) {
    (f: Fact) => f.node == node && f.readable
      && (|| f.path == PurposeGoal || f.path == SupportTarget || f.path == Beneficiary || f.path == SupportActivities
          || f.path == SupportMethods || f.path == SupportItems || f.path == SupportContent)
  }

  /** What a node brings to its side: its own id and those of the facts attached to it, in order. */
  function Brings(facts: seq<Fact>, n: Fact): (ids: Side) {
    (if FitFactId(n) != "" then [FitFactId(n)] else []) + Ids(facts, Attached(n.node))
  }

  function BringsAll(facts: seq<Fact>, nodes: seq<Fact>): (ids: Side) {
    if nodes == [] then [] else BringsAll(facts, nodes[..|nodes| - 1]) + Brings(facts, nodes[|nodes| - 1])
  }

  lemma {:induction false} AttachedInOrder(facts: seq<Fact>, node: string)
    ensures FitHierarchy.AttachedIds(facts, node) == Ids(facts, Attached(node))
  {
    hide FitFactId;
    if facts != [] {
      AttachedInOrder(facts[..|facts| - 1], node);
      OneMorePicked(facts, Attached(node));
    }
  }

  lemma {:induction false} BroughtInOrder(facts: seq<Fact>, nodes: seq<Fact>)
    ensures FitHierarchy.IdsOf(nodes, facts) == BringsAll(facts, nodes)
  {
    hide FitFactId, Ids;
    if nodes != [] {
      var last := nodes[|nodes| - 1];
      BroughtInOrder(facts, nodes[..|nodes| - 1]);
      AttachedInOrder(facts, last.node);
    }
  }

  lemma {:induction false} BroughtExactly(facts: seq<Fact>, nodes: seq<Fact>, id: string)
    ensures id in BringsAll(facts, nodes) <==> exists n :: n in nodes && id in Brings(facts, n)
  {
    hide Brings;
    if nodes != [] {
      BroughtExactly(facts, nodes[..|nodes| - 1], id);
      assert nodes == nodes[..|nodes| - 1] + [nodes[|nodes| - 1]];
    }
  }

  /** An id that a node brings: its own, or one of a fact attached to it. */
  lemma BringsExactly(facts: seq<Fact>, n: Fact, id: string)
    ensures id in Brings(facts, n) <==>
              id != "" && (FitFactId(n) == id || exists f :: f in facts && Attached(n.node)(f) && FitFactId(f) == id)
  {
    IdsExactly(facts, Attached(n.node), id);
    hide Ids, FitFactId, Attached;
  }

  lemma EndsMembers(facts: seq<Fact>, parents: bool, n: Fact)
    ensures var edges := FitHierarchy.SelectedEdges(facts);
            n in FitHierarchy.Ends(edges, parents)
            <==> exists e :: e in edges && n == (if parents then e.parent else e.child)
  {
    var edges := FitHierarchy.SelectedEdges(facts);
    hide FitHierarchy.SelectedEdges, FirstNode;
    if e :| e in edges && n == (if parents then e.parent else e.child) {
      ComparedExactly(facts, e);
      EdgesExactly(facts, e);
      NodesExactly(facts, n);
      FitHierarchy.EndsExactly(edges, parents, n.node);
      FitHierarchy.SharedNodeIsAnEnd(facts, n, parents);
    }
  }

  function End(e: FitHierarchy.Edge, parents: bool): (n: Fact) {
    if parents then e.parent else e.child
  }

  function SideOfEnds(facts: seq<Fact>, parents: bool): (ids: Side) {
    PyText.FirstOnly(FitHierarchy.IdsOf(FitHierarchy.Ends(FitHierarchy.SelectedEdges(facts), parents), facts))
  }

  lemma EndSideExactly(facts: seq<Fact>, parents: bool, id: string)
    ensures id in SideOfEnds(facts, parents) <==> exists e :: Compared(facts, e) && id in Brings(facts, End(e, parents))
  {
    var nodes := FitHierarchy.Ends(FitHierarchy.SelectedEdges(facts), parents);
    hide FitHierarchy.SelectedEdges, FitHierarchy.Ends, Compared, Brings, FitHierarchy.IdsOf, PyText.FirstOnly,
      BringsAll;
    BroughtInOrder(facts, nodes);
    BroughtExactly(facts, nodes, id);
    if n :| n in nodes && id in Brings(facts, n) {
      EndsMembers(facts, parents, n);
      var e :| e in FitHierarchy.SelectedEdges(facts) && n == (if parents then e.parent else e.child);
      ComparedExactly(facts, e);
    }
    if e :| Compared(facts, e) && id in Brings(facts, End(e, parents)) {
      ComparedExactly(facts, e);
      EndsMembers(facts, parents, End(e, parents));
    }
  }

  lemma SidesOfEnds(facts: seq<Fact>)
    ensures FitHierarchy.HierarchySides(facts)
         == if forall e :: !Compared(facts, e) then None
         else Some(Sides(SideOfEnds(facts, true), SideOfEnds(facts, false)))
  {
    var edges := FitHierarchy.SelectedEdges(facts);
    hide FitHierarchy.SelectedEdges, FitHierarchy.Ends, Compared, FitHierarchy.IdsOf, PyText.FirstOnly;
    if e :| Compared(facts, e) {
      ComparedExactly(facts, e);
    }
    if edges != [] {
      assert edges[0] in edges;
      ComparedExactly(facts, edges[0]);
    }
  }

  /** FIT-4 compares what the parents of the compared edges bring with what their children bring. */
  lemma HierarchySidesExactly(facts: seq<Fact>, id: string)
    ensures match FitHierarchy.HierarchySides(facts)
            case None => forall e :: !Compared(facts, e)
            case Some(sides) =>
              && (exists e :: Compared(facts, e))
              && (id in sides.left <==> exists e :: Compared(facts, e) && id in Brings(facts, e.parent))
              && (id in sides.right <==> exists e :: Compared(facts, e) && id in Brings(facts, e.child))
  {
    SidesOfEnds(facts);
    EndSideExactly(facts, true, id);
    EndSideExactly(facts, false, id);
    hide FitHierarchy.HierarchySides, SideOfEnds, Compared, Brings;
    assert forall e: FitHierarchy.Edge :: End(e, true) == e.parent && End(e, false) == e.child;
  }
}

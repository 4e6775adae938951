/** Existing profiles as the pack validator accepts them, and the row counts that the validator and
    the verifier compute (backend/scripts/existing_kb_pack.py, backend/scripts/verify_existing_kb.py). */
module ProfilePack {
  import opened Wrappers

  /** An organization occurrence by its exact span. */
  datatype Organization = Organization(block: string, start: nat, end: nat, value: string)

  datatype Fact = Fact(
    id: string, field: string, noticeScope: bool, component: Option<string>,
    evidence: seq<string>, context: seq<string>,
    modified: seq<string>, recipients: seq<string>, basis: seq<string>, applicability: seq<string>,
    role: Option<string>, organizations: seq<Organization>)

  datatype Component = Component(id: string, facts: seq<Fact>)

  datatype Measure = Measure(source: string, body: string)

  datatype Projection =
    | TargetConstraints(positive: seq<string>, exclusions: seq<string>,
                        entityTypes: seq<string>, regions: seq<string>, industries: seq<string>)
    | SupportFacets(sources: seq<string>, activities: seq<string>, methods: seq<string>, items: seq<string>)
    | SupportScale(measures: seq<Measure>)

  /** One field of the comparison profile with its facts. */
  datatype Container = Container(field: string, facts: seq<Fact>)

  datatype Profile = Profile(comparison: seq<Container>, components: seq<Component>, projections: seq<Projection>)

  predicate IsDelivery(f: Fact) {
    f.field == "delivery_roles"
  }

  // ---------------------------------------------------------------- facts and ids

  function ContainedFacts(containers: seq<Container>): (facts: seq<Fact>) {
    if containers == [] then [] else ContainedFacts(containers[..|containers| - 1]) + containers[|containers| - 1].facts
  }

  function ComponentFacts(components: seq<Component>): (facts: seq<Fact>) {
    if components == [] then [] else ComponentFacts(components[..|components| - 1]) + components[|components| - 1].facts
  }

  /** The facts in the order of both _facts and all_facts, repeated ids included. */
  function EveryFact(p: Profile): (facts: seq<Fact>) {
    ContainedFacts(p.comparison) + ComponentFacts(p.components)
  }

  function FactIds(facts: seq<Fact>): (ids: seq<string>)
    ensures |ids| == |facts| && forall i :: 0 <= i < |facts| ==> ids[i] == facts[i].id
  {
    seq(|facts|, i requires 0 <= i < |facts| => facts[i].id)
  }

  function ComponentIds(components: seq<Component>): (ids: seq<string>)
    ensures |ids| == |components| && forall i :: 0 <= i < |components| ==> ids[i] == components[i].id
  {
    seq(|components|, i requires 0 <= i < |components| => components[i].id)
  }

  /** all_facts: of the facts that share an id, the first. */
  function FirstById(facts: seq<Fact>): (firsts: seq<Fact>) {
    if facts == [] then []
    else
      var (init, last) := (facts[..|facts| - 1], facts[|facts| - 1]);
      if last.id in FactIds(init) then FirstById(init) else FirstById(init) + [last]
  }

  function AllFacts(p: Profile): (facts: seq<Fact>) {
    FirstById(EveryFact(p))
  }

  ghost predicate Distinct<T>(s: seq<T>) {
    forall i, j :: 0 <= i < j < |s| ==> s[i] != s[j]
  }

  /** len(s) == len(set(s)) */
  predicate NoRepeats(s: seq<string>)
    ensures NoRepeats(s) <==> Distinct(s)
  {
    s == [] || (s[|s| - 1] !in s[..|s| - 1] && NoRepeats(s[..|s| - 1]))
  }

  lemma {:induction false} DistinctIdsNeedNoFolding(facts: seq<Fact>)
    requires Distinct(FactIds(facts))
    ensures FirstById(facts) == facts
  {
    if facts != [] {
      var (init, last) := (facts[..|facts| - 1], facts[|facts| - 1]);
      assert FactIds(init) == FactIds(facts)[..|init|];
      DistinctIdsNeedNoFolding(init);
      assert facts == init + [last];
    }
  }

  // ---------------------------------------------------------------- counts

  datatype Table =
    | SupportComponent | FactOccurrence | FactEvidence | FactContext | FactRelation | FactComponentLink
    | DeliveryRole | DeliveryRoleOrganization
    | SupportFacet | SupportFacetSource | SupportFacetValue
    | SupportScaleProjection | SupportScaleMeasure
    | TargetConstraint | TargetConstraintSource | TargetConstraintDimension

  /** The rows that a fact stands for in a table. */
  function FactRowCount(f: Fact, t: Table): (n: nat) {
    match t
    case FactOccurrence => 1
    case FactEvidence => |f.evidence|
    case FactContext => |f.context|
    case FactRelation => |f.modified| + |f.recipients| + |f.basis|
    case FactComponentLink => |f.applicability|
    case DeliveryRole => if IsDelivery(f) then 1 else 0
    case DeliveryRoleOrganization => if IsDelivery(f) then |f.organizations| else 0
    case _ => 0
  }

  function ProjectionRowCount(q: Projection, t: Table): (n: nat) {
    match q
    case TargetConstraints(positive, exclusions, entityTypes, regions, industries) =>
      (match t
       case TargetConstraint => 1
       case TargetConstraintSource => |positive| + |exclusions|
       case TargetConstraintDimension => |entityTypes| + |regions| + |industries|
       case _ => 0)
    case SupportFacets(sources, activities, methods, items) =>
      (match t
       case SupportFacet => 1
       case SupportFacetSource => |sources|
       case SupportFacetValue => |activities| + |methods| + |items|
       case _ => 0)
    case SupportScale(measures) =>
      (match t
       case SupportScaleProjection => 1
       case SupportScaleMeasure => |measures|
       case _ => 0)
  }

  function FactsRowCount(facts: seq<Fact>, t: Table): (n: nat) {
    if facts == [] then 0 else FactsRowCount(facts[..|facts| - 1], t) + FactRowCount(facts[|facts| - 1], t)
  }

  function ProjectionsRowCount(projections: seq<Projection>, t: Table): (n: nat) {
    if projections == [] then 0
    else ProjectionsRowCount(projections[..|projections| - 1], t)
         + ProjectionRowCount(projections[|projections| - 1], t)
  }

  function RowCount(facts: seq<Fact>, p: Profile, t: Table): (n: nat) {
    (if t == SupportComponent then |p.components| else 0) + FactsRowCount(facts, t)
      + ProjectionsRowCount(p.projections, t)
  }

  /** The validator counts over its own list of facts, the verifier over the importer's. */
  function PackCount(p: Profile, t: Table): (n: nat) {
    RowCount(EveryFact(p), p, t)
  }

  function ExpectedCount(p: Profile, t: Table): (n: nat) {
    RowCount(AllFacts(p), p, t)
  }

  // ---------------------------------------------------------------- the validator's reference checks

  predicate Known(ids: seq<string>, known: set<string>) {
    forall id :: id in ids ==> id in known
  }

  function IdSet(ids: seq<string>): (known: set<string>) {
    set id | id in ids
  }

  predicate ContainersMatch(containers: seq<Container>) {
    forall c, f :: c in containers && f in c.facts ==> f.field == c.field
  }

  /** The checks on one fact while the ids are collected. */
  predicate FactAccepted(f: Fact, components: set<string>) {
    && f.id != ""
    && (if f.noticeScope then f.component.None? else f.component.Some? && f.component.value in components)
    && NoRepeats(f.applicability) && Known(f.applicability, components)
    && (IsDelivery(f) ==> f.organizations != [] && forall o :: o in f.organizations ==> o.start < o.end)
  }

  /** The checks on its relations once all ids are known. */
  predicate RelationsAccepted(f: Fact, facts: set<string>) {
    && Known(f.modified, facts) && f.id !in f.modified && NoRepeats(f.modified)
    && Known(f.recipients, facts) && f.id !in f.recipients && NoRepeats(f.recipients)
    && Known(f.basis, facts) && f.id !in f.basis && NoRepeats(f.basis)
  }

  predicate ProjectionAccepted(q: Projection, facts: seq<Fact>, ids: set<string>) {
    match q
    case TargetConstraints(positive, exclusions, _, _, _) =>
      && Known(positive, ids) && NoRepeats(positive) && Known(exclusions, ids) && NoRepeats(exclusions)
      && (forall id :: id in positive ==> id !in exclusions)
      && (forall f :: f in facts && (f.id in positive || f.id in exclusions) ==> f.field != "beneficiary")
    case SupportFacets(sources, _, _, _) => Known(sources, ids) && NoRepeats(sources)
    case SupportScale(measures) => forall m :: m in measures ==> m.source in ids
  }

  ghost predicate Accepted(p: Profile) {
    var facts := EveryFact(p);
    var (ids, components) := (IdSet(FactIds(facts)), IdSet(ComponentIds(p.components)));
    && ContainersMatch(p.comparison)
    && "" !in ComponentIds(p.components) && Distinct(ComponentIds(p.components))
    && Distinct(FactIds(facts))
    && (forall f :: f in facts ==> FactAccepted(f, components) && RelationsAccepted(f, ids))
    && (forall q :: q in p.projections ==> ProjectionAccepted(q, facts, ids))
    && ProjectionsRowCount(p.projections, TargetConstraint) <= 1
    && ProjectionsRowCount(p.projections, SupportScaleProjection) <= 1
  }

  /** _validate_profile, reference and uniqueness checks: accepts exactly the profiles that meet
      them all and counts their rows. */
  method ValidateProfile(p: Profile) returns (r: Result<map<Table, nat>>)
    ensures r.Ok? <==> Accepted(p)
    ensures r.Ok? ==> forall t: Table :: t in r.value && r.value[t] == PackCount(p, t)
  {
    hide NoRepeats, Known, IsDelivery, FactAccepted, RelationsAccepted, ProjectionAccepted, ContainersMatch,
      FactsRowCount, ProjectionsRowCount;
    var componentIds := ComponentIds(p.components);
    if "" in componentIds || !NoRepeats(componentIds) { return Err("support_component_id"); }
    if !ContainersMatch(p.comparison) { return Err("comparison fact field/container mismatch"); }
    var components := IdSet(componentIds);
    var facts := EveryFact(p);
    var seen: set<string> := {};
    for i := 0 to |facts|
      invariant seen == IdSet(FactIds(facts[..i])) && Distinct(FactIds(facts[..i]))
      invariant forall k :: 0 <= k < i ==> FactAccepted(facts[k], components)
    {
      IdsGrow(facts, i);
      if facts[i].id in seen { return Err("duplicate fact_id"); }
      assert facts[i] in facts;
      if !FactAccepted(facts[i], components) { return Err("fact"); }
      seen := seen + {facts[i].id};
    }
    assert facts[..|facts|] == facts;
    for i := 0 to |facts|
      invariant forall k :: 0 <= k < i ==> RelationsAccepted(facts[k], seen)
    {
      assert facts[i] in facts;
      if !RelationsAccepted(facts[i], seen) { return Err("fact relation"); }
    }
    var projections := p.projections;
    for i := 0 to |projections|
      invariant forall k :: 0 <= k < i ==> ProjectionAccepted(projections[k], facts, seen)
    {
      assert projections[i] in projections;
      if !ProjectionAccepted(projections[i], facts, seen) { return Err("projection"); }
    }
    if ProjectionsRowCount(projections, TargetConstraint) > 1
       || ProjectionsRowCount(projections, SupportScaleProjection) > 1 {
      return Err("at most one projection");
    }
    assert Accepted(p);
    EveryTable();
    r := Ok(map t | t in TABLES :: PackCount(p, t));
  }

  const TABLES: set<Table> := {
    SupportComponent, FactOccurrence, FactEvidence, FactContext, FactRelation, FactComponentLink,
    DeliveryRole, DeliveryRoleOrganization, SupportFacet, SupportFacetSource, SupportFacetValue,
    SupportScaleProjection, SupportScaleMeasure, TargetConstraint, TargetConstraintSource, TargetConstraintDimension}

  lemma EveryTable()
    ensures forall t: Table :: t in TABLES
  {
    forall t: Table ensures t in TABLES {
      match t
      case SupportComponent =>
      case FactOccurrence =>
      case FactEvidence =>
      case FactContext =>
      case FactRelation =>
      case FactComponentLink =>
      case DeliveryRole =>
      case DeliveryRoleOrganization =>
      case SupportFacet =>
      case SupportFacetSource =>
      case SupportFacetValue =>
      case SupportScaleProjection =>
      case SupportScaleMeasure =>
      case TargetConstraint =>
      case TargetConstraintSource =>
      case TargetConstraintDimension =>
    }
  }

  lemma IdsGrow(facts: seq<Fact>, i: nat)
    requires i < |facts|
    ensures FactIds(facts[..i + 1]) == FactIds(facts[..i]) + [facts[i].id]
    ensures IdSet(FactIds(facts[..i + 1])) == IdSet(FactIds(facts[..i])) + {facts[i].id}
    ensures Distinct(FactIds(facts[..i + 1]))
            <==> Distinct(FactIds(facts[..i])) && facts[i].id !in IdSet(FactIds(facts[..i]))
    ensures !Distinct(FactIds(facts[..i + 1])) ==> !Distinct(FactIds(facts))
  {
    assert FactIds(facts[..i + 1]) == FactIds(facts[..i]) + [facts[i].id];
    assert FactIds(facts[..i + 1]) == FactIds(facts)[..i + 1];
  }

  /** Validator and verifier count the same rows, table by table, for every accepted profile. */
  lemma BothCountsAgree(p: Profile, t: Table)
    requires Accepted(p)
    ensures AllFacts(p) == EveryFact(p) && ExpectedCount(p, t) == PackCount(p, t)
  {
    DistinctIdsNeedNoFolding(EveryFact(p));
  }
}

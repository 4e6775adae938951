/** What the importer inserts for a profile, row by row and with the keys it resolved
    (backend/scripts/ingest_existing_profile.py). */
module ProfileImport {
  import opened Wrappers
  import opened ProfilePack

  /** A row with its foreign keys; a row's own key is its rank among the rows of its table. */
  datatype Row =
    | ComponentRow(profile: nat, id: string, ordinal: nat)
    | FactRow(profile: nat, id: string, field: string, component: Option<nat>, ordinal: nat)
    | EvidenceRow(fact: nat, content: string, ordinal: nat)
    | ContextRow(fact: nat, content: string, ordinal: nat)
    | RelationRow(source: nat, target: nat, relation: string)
    | ApplicabilityRow(fact: nat, componentPk: nat)
    | RoleRow(fact: nat, role: Option<string>)
    | OrganizationRow(fact: nat, block: string, start: nat, end: nat, value: string, ordinal: nat)
    | FacetRow(profile: nat, ordinal: nat)
    | FacetSourceRow(facet: nat, fact: nat, ordinal: nat)
    | FacetValueRow(facet: nat, kind: string, value: string, ordinal: nat)
    | ScaleRow(profile: nat)
    | MeasureRow(scale: nat, fact: nat, body: string, ordinal: nat)
    | TargetRow(profile: nat)
    | TargetSourceRow(constraint: nat, fact: nat, sourceRole: string, ordinal: nat)
    | DimensionRow(constraint: nat, dimension: string, value: string, ordinal: nat)

  function TableOf(row: Row): (t: Table) {
    match row
    case ComponentRow(_, _, _) => SupportComponent
    case FactRow(_, _, _, _, _) => FactOccurrence
    case EvidenceRow(_, _, _) => FactEvidence
    case ContextRow(_, _, _) => FactContext
    case RelationRow(_, _, _) => FactRelation
    case ApplicabilityRow(_, _) => FactComponentLink
    case RoleRow(_, _) => DeliveryRole
    case OrganizationRow(_, _, _, _, _, _) => DeliveryRoleOrganization
    case FacetRow(_, _) => SupportFacet
    case FacetSourceRow(_, _, _) => SupportFacetSource
    case FacetValueRow(_, _, _, _) => SupportFacetValue
    case ScaleRow(_) => SupportScaleProjection
    case MeasureRow(_, _, _, _) => SupportScaleMeasure
    case TargetRow(_) => TargetConstraint
    case TargetSourceRow(_, _, _, _) => TargetConstraintSource
    case DimensionRow(_, _, _, _) => TargetConstraintDimension
  }

  /** The number of rows of a table. */
  function Count(rows: seq<Row>, t: Table): (n: nat) {
    if rows == [] then 0 else Count(rows[..|rows| - 1], t) + (if TableOf(rows[|rows| - 1]) == t then 1 else 0)
  }

  lemma {:induction false} CountAppend(a: seq<Row>, b: seq<Row>, t: Table)
    ensures Count(a + b, t) == Count(a, t) + Count(b, t)
  {
    if b == [] {
      assert a + b == a;
    } else {
      CountAppend(a, b[..|b| - 1], t);
      assert (a + b)[..|a + b| - 1] == a + b[..|b| - 1];
    }
  }

  // ---------------------------------------------------------------- the keys

  /** component_pks and fact_pks: the ids in the order of insertion and the first key. */
  datatype Keys = Keys(profile: nat, componentIds: seq<string>, componentBase: nat, factIds: seq<string>, factBase: nat)

  function LastIndex(ids: seq<string>, id: string): (i: Option<nat>)
    ensures i.Some? <==> id in ids
    ensures i.Some? ==> i.value < |ids| && ids[i.value] == id
  {
    if ids == [] then None
    else if ids[|ids| - 1] == id then Some(|ids| - 1)
    else
      assert ids == ids[..|ids| - 1] + [ids[|ids| - 1]];
      LastIndex(ids[..|ids| - 1], id)
  }

  function ComponentPk(keys: Keys, id: string): (pk: Option<nat>)
    ensures pk.Some? <==> id in keys.componentIds
  {
    match LastIndex(keys.componentIds, id)
    case None => None
    case Some(i) => Some(keys.componentBase + i)
  }

  function FactPk(keys: Keys, id: string): (pk: Option<nat>)
    ensures pk.Some? <==> id in keys.factIds
  {
    match LastIndex(keys.factIds, id)
    case None => None
    case Some(i) => Some(keys.factBase + i)
  }

  predicate AllFactsKnown(keys: Keys, ids: seq<string>) {
    forall id :: id in ids ==> id in keys.factIds
  }

  predicate AllComponentsKnown(keys: Keys, ids: seq<string>) {
    forall id :: id in ids ==> id in keys.componentIds
  }

  // ---------------------------------------------------------------- the rows

  function ComponentRows(profile: nat, components: seq<Component>): (rows: seq<Row>)
    ensures |rows| == |components| && forall r :: r in rows ==> TableOf(r) == SupportComponent
  {
    if components == [] then []
    else
      var n := |components| - 1;
      ComponentRows(profile, components[..n]) + [ComponentRow(profile, components[n].id, n)]
  }

  function EvidenceRows(fact: nat, evidence: seq<string>): (rows: seq<Row>)
    ensures |rows| == |evidence| && forall r :: r in rows ==> TableOf(r) == FactEvidence
  {
    if evidence == [] then []
    else EvidenceRows(fact, evidence[..|evidence| - 1]) + [EvidenceRow(fact, evidence[|evidence| - 1], |evidence| - 1)]
  }

  function ContextRows(fact: nat, context: seq<string>): (rows: seq<Row>)
    ensures |rows| == |context| && forall r :: r in rows ==> TableOf(r) == FactContext
  {
    if context == [] then []
    else ContextRows(fact, context[..|context| - 1]) + [ContextRow(fact, context[|context| - 1], |context| - 1)]
  }

  /** The i-th fact with its evidence and context. */
  function OwnRows(keys: Keys, f: Fact, i: nat): (rows: seq<Row>) {
    var component := if f.component.Some? then ComponentPk(keys, f.component.value) else None;
    [FactRow(keys.profile, f.id, f.field, component, i)]
    + EvidenceRows(keys.factBase + i, f.evidence) + ContextRows(keys.factBase + i, f.context)
  }

  function FactRows(keys: Keys, facts: seq<Fact>): (rows: seq<Row>) {
    if facts == [] then []
    else FactRows(keys, facts[..|facts| - 1]) + OwnRows(keys, facts[|facts| - 1], |facts| - 1)
  }

  function RelationRows(keys: Keys, source: nat, targets: seq<string>, relation: string): (rows: seq<Row>)
    requires AllFactsKnown(keys, targets)
    ensures |rows| == |targets| && forall r :: r in rows ==> TableOf(r) == FactRelation
  {
    if targets == [] then []
    else
      var last := targets[|targets| - 1];
      RelationRows(keys, source, targets[..|targets| - 1], relation)
        + [RelationRow(source, FactPk(keys, last).value, relation)]
  }

  function ApplicabilityRows(keys: Keys, source: nat, components: seq<string>): (rows: seq<Row>)
    requires AllComponentsKnown(keys, components)
    ensures |rows| == |components| && forall r :: r in rows ==> TableOf(r) == FactComponentLink
  {
    if components == [] then []
    else
      var last := components[|components| - 1];
      ApplicabilityRows(keys, source, components[..|components| - 1])
        + [ApplicabilityRow(source, ComponentPk(keys, last).value)]
  }

  /** Every id a fact mentions has a key. */
  predicate LinksResolve(keys: Keys, f: Fact) {
    && f.id in keys.factIds
    && AllFactsKnown(keys, f.modified) && AllFactsKnown(keys, f.recipients) && AllFactsKnown(keys, f.basis)
    && AllComponentsKnown(keys, f.applicability)
  }

  function LinksOf(keys: Keys, f: Fact): (rows: seq<Row>)
    requires LinksResolve(keys, f)
  {
    var source := FactPk(keys, f.id).value;
    RelationRows(keys, source, f.modified, "modifies") + RelationRows(keys, source, f.recipients, "recipient")
    + RelationRows(keys, source, f.basis, "basis") + ApplicabilityRows(keys, source, f.applicability)
  }

  predicate AllLinked(keys: Keys, facts: seq<Fact>) {
    forall f :: f in facts ==> LinksResolve(keys, f)
  }

  function LinkRows(keys: Keys, facts: seq<Fact>): (rows: seq<Row>)
    requires AllLinked(keys, facts)
  {
    if facts == [] then [] else LinkRows(keys, facts[..|facts| - 1]) + LinksOf(keys, facts[|facts| - 1])
  }

  function TargetSources(keys: Keys, constraint: nat, ids: seq<string>, role: string, from: nat): (rows: seq<Row>)
    requires AllFactsKnown(keys, ids)
    ensures |rows| == |ids| && forall r :: r in rows ==> TableOf(r) == TargetConstraintSource
  {
    if ids == [] then []
    else
      var n := |ids| - 1;
      TargetSources(keys, constraint, ids[..n], role, from)
        + [TargetSourceRow(constraint, FactPk(keys, ids[n]).value, role, from + n)]
  }

  function Dimensions(constraint: nat, values: seq<string>, dimension: string, from: nat): (rows: seq<Row>)
    ensures |rows| == |values| && forall r :: r in rows ==> TableOf(r) == TargetConstraintDimension
  {
    if values == [] then []
    else
      var n := |values| - 1;
      Dimensions(constraint, values[..n], dimension, from) + [DimensionRow(constraint, dimension, values[n], from + n)]
  }

  function FacetSources(keys: Keys, facet: nat, ids: seq<string>): (rows: seq<Row>)
    requires AllFactsKnown(keys, ids)
    ensures |rows| == |ids| && forall r :: r in rows ==> TableOf(r) == SupportFacetSource
  {
    if ids == [] then []
    else
      var n := |ids| - 1;
      FacetSources(keys, facet, ids[..n]) + [FacetSourceRow(facet, FactPk(keys, ids[n]).value, n)]
  }

  function FacetValues(facet: nat, values: seq<string>, kind: string): (rows: seq<Row>)
    ensures |rows| == |values| && forall r :: r in rows ==> TableOf(r) == SupportFacetValue
  {
    if values == [] then []
    else
      var n := |values| - 1;
      FacetValues(facet, values[..n], kind) + [FacetValueRow(facet, kind, values[n], n)]
  }

  function MeasureRows(keys: Keys, scale: nat, measures: seq<Measure>): (rows: seq<Row>)
    requires forall m :: m in measures ==> m.source in keys.factIds
    ensures |rows| == |measures| && forall r :: r in rows ==> TableOf(r) == SupportScaleMeasure
  {
    if measures == [] then []
    else
      var n := |measures| - 1;
      MeasureRows(keys, scale, measures[..n])
        + [MeasureRow(scale, FactPk(keys, measures[n].source).value, measures[n].body, n)]
  }

  predicate ProjectionResolves(keys: Keys, q: Projection) {
    match q
    case TargetConstraints(positive, exclusions, _, _, _) =>
      AllFactsKnown(keys, positive) && AllFactsKnown(keys, exclusions)
    case SupportFacets(sources, _, _, _) => AllFactsKnown(keys, sources)
    case SupportScale(measures) => forall m :: m in measures ==> m.source in keys.factIds
  }

  /** A projection's rows; pk is the key of its first row, facets the number of facets before it. */
  function RowsOfProjection(keys: Keys, q: Projection, pk: nat, facets: nat): (rows: seq<Row>)
    requires ProjectionResolves(keys, q)
  {
    match q
    case TargetConstraints(positive, exclusions, entityTypes, regions, industries) =>
      [TargetRow(keys.profile)]
      + TargetSources(keys, pk, positive, "positive", 0) + TargetSources(keys, pk, exclusions, "exclusion", |positive|)
      + Dimensions(pk, entityTypes, "entity_types", 0) + Dimensions(pk, regions, "regions", |entityTypes|)
      + Dimensions(pk, industries, "industries", |entityTypes| + |regions|)
    case SupportFacets(sources, activities, methods, items) =>
      [FacetRow(keys.profile, facets)] + FacetSources(keys, pk, sources)
      + FacetValues(pk, activities, "activity") + FacetValues(pk, methods, "method") + FacetValues(pk, items, "item")
    case SupportScale(measures) =>
      [ScaleRow(keys.profile)] + MeasureRows(keys, pk, measures)
  }

  function HeadTable(q: Projection): (t: Table) {
    match q
    case TargetConstraints(_, _, _, _, _) => TargetConstraint
    case SupportFacets(_, _, _, _) => SupportFacet
    case SupportScale(_) => SupportScaleProjection
  }

  /** The rows of all projections, appended to the rows already there. */
  function ProjectionRows(keys: Keys, projections: seq<Projection>, before: seq<Row>): (rows: seq<Row>)
    requires forall q :: q in projections ==> ProjectionResolves(keys, q)
  {
    if projections == [] then []
    else
      var n := |projections| - 1;
      var init := ProjectionRows(keys, projections[..n], before);
      var q := projections[n];
      init + RowsOfProjection(keys, q, Count(before + init, HeadTable(q)),
        ProjectionsRowCount(projections[..n], SupportFacet))
  }

  // ---------------------------------------------------------------- the rows are counted

  lemma {:induction false} CountUniform(rows: seq<Row>, of: Table, t: Table)
    requires forall r :: r in rows ==> TableOf(r) == of
    ensures Count(rows, t) == if t == of then |rows| else 0
  {
    if rows != [] {
      CountUniform(rows[..|rows| - 1], of, t);
      assert rows[|rows| - 1] in rows;
    }
  }

  lemma CountOne(row: Row, t: Table)
    ensures Count([row], t) == if TableOf(row) == t then 1 else 0
  {
    assert [row][..0] == [];
  }

  lemma HeadTables(row: Row)
    ensures row.FactRow? ==> TableOf(row) == FactOccurrence
    ensures row.TargetRow? ==> TableOf(row) == TargetConstraint
    ensures row.FacetRow? ==> TableOf(row) == SupportFacet
    ensures row.ScaleRow? ==> TableOf(row) == SupportScaleProjection
  {
  }

  lemma CountOwn(keys: Keys, f: Fact, i: nat, t: Table)
    ensures Count(OwnRows(keys, f, i), t)
            == (match t
                case FactOccurrence => 1
                case FactEvidence => |f.evidence|
                case FactContext => |f.context|
                case _ => 0)
  {
    hide Count, EvidenceRows, ContextRows, TableOf;
    var component := if f.component.Some? then ComponentPk(keys, f.component.value) else None;
    var row := FactRow(keys.profile, f.id, f.field, component, i);
    assert TableOf(row) == FactOccurrence by { HeadTables(row); }
    var (evidence, context) := (EvidenceRows(keys.factBase + i, f.evidence), ContextRows(keys.factBase + i, f.context));
    CountOne(row, t);
    CountUniform(evidence, FactEvidence, t);
    CountUniform(context, FactContext, t);
    CountAppend([row], evidence, t);
    CountAppend([row] + evidence, context, t);
  }

  lemma CountLinks(keys: Keys, f: Fact, t: Table)
    requires LinksResolve(keys, f)
    ensures Count(LinksOf(keys, f), t)
            == (match t
                case FactRelation => |f.modified| + |f.recipients| + |f.basis|
                case FactComponentLink => |f.applicability|
                case _ => 0)
  {
    var source := FactPk(keys, f.id).value;
    var (a, b, c) := (RelationRows(keys, source, f.modified, "modifies"),
         RelationRows(keys, source, f.recipients, "recipient"),
                      RelationRows(keys, source, f.basis, "basis"));
    var d := ApplicabilityRows(keys, source, f.applicability);
    CountUniform(a, FactRelation, t);
    CountUniform(b, FactRelation, t);
    CountUniform(c, FactRelation, t);
    CountUniform(d, FactComponentLink, t);
    hide Count;
    CountAppend(a, b, t);
    CountAppend(a + b, c, t);
    CountAppend(a + b + c, d, t);
  }

  lemma CountFive(a: seq<Row>, b: seq<Row>, c: seq<Row>, d: seq<Row>, e: seq<Row>, t: Table)
    ensures Count(a + b + c + d + e, t) == Count(a, t) + Count(b, t) + Count(c, t) + Count(d, t) + Count(e, t)
  {
    hide Count;
    CountAppend(a, b, t);
    CountAppend(a + b, c, t);
    CountAppend(a + b + c, d, t);
    CountAppend(a + b + c + d, e, t);
  }

  lemma CountTarget(keys: Keys, q: Projection, pk: nat, t: Table)
    requires q.TargetConstraints? && ProjectionResolves(keys, q)
    ensures Count(RowsOfProjection(keys, q, pk, 0), t) == ProjectionRowCount(q, t)
  {
    hide Count, TargetSources, Dimensions, TableOf;
    var head := [TargetRow(keys.profile)];
    HeadTables(head[0]);
    var (a, b) := (TargetSources(keys, pk, q.positive, "positive", 0),
         TargetSources(keys, pk, q.exclusions, "exclusion", |q.positive|));
    var (c, d, e) := (Dimensions(pk, q.entityTypes, "entity_types", 0),
         Dimensions(pk, q.regions, "regions", |q.entityTypes|),
                      Dimensions(pk, q.industries, "industries", |q.entityTypes| + |q.regions|));
    CountOne(head[0], t);
    CountUniform(a, TargetConstraintSource, t);
    CountUniform(b, TargetConstraintSource, t);
    CountUniform(c, TargetConstraintDimension, t);
    CountUniform(d, TargetConstraintDimension, t);
    CountUniform(e, TargetConstraintDimension, t);
    CountFive(head, a, b, c, d, t);
    CountAppend(head + a + b + c + d, e, t);
  }

  lemma CountFacet(keys: Keys, q: Projection, pk: nat, facets: nat, t: Table)
    requires q.SupportFacets? && ProjectionResolves(keys, q)
    ensures Count(RowsOfProjection(keys, q, pk, facets), t) == ProjectionRowCount(q, t)
  {
    hide Count, FacetSources, FacetValues, TableOf;
    var head := [FacetRow(keys.profile, facets)];
    HeadTables(head[0]);
    var (a, b, c, d) := (FacetSources(keys, pk, q.sources), FacetValues(pk, q.activities, "activity"),
                         FacetValues(pk, q.methods, "method"), FacetValues(pk, q.items, "item"));
    CountOne(head[0], t);
    CountUniform(a, SupportFacetSource, t);
    CountUniform(b, SupportFacetValue, t);
    CountUniform(c, SupportFacetValue, t);
    CountUniform(d, SupportFacetValue, t);
    CountFive(head, a, b, c, d, t);
  }

  lemma CountScale(keys: Keys, q: Projection, pk: nat, t: Table)
    requires q.SupportScale? && ProjectionResolves(keys, q)
    ensures Count(RowsOfProjection(keys, q, pk, 0), t) == ProjectionRowCount(q, t)
  {
    var (head, a) := ([ScaleRow(keys.profile)], MeasureRows(keys, pk, q.measures));
    CountOne(head[0], t);
    CountUniform(a, SupportScaleMeasure, t);
    hide Count, MeasureRows;
    CountAppend(head, a, t);
  }

  lemma CountProjection(keys: Keys, q: Projection, pk: nat, facets: nat, t: Table)
    requires ProjectionResolves(keys, q)
    ensures Count(RowsOfProjection(keys, q, pk, facets), t) == ProjectionRowCount(q, t)
  {
    hide Count, ProjectionRowCount;
    match q
    case TargetConstraints(_, _, _, _, _) => CountTarget(keys, q, pk, t);
    case SupportFacets(_, _, _, _) => CountFacet(keys, q, pk, facets, t);
    case SupportScale(_) => CountScale(keys, q, pk, t);
  }

  predicate Delivers(t: Table) {
    t == DeliveryRole || t == DeliveryRoleOrganization
  }

  /** Facts with evidence, context, relations and links: as many rows as the counts say. */
  lemma {:induction false} CountFacts(keys: Keys, facts: seq<Fact>, t: Table)
    requires !Delivers(t) && AllLinked(keys, facts)
    ensures Count(FactRows(keys, facts), t) + Count(LinkRows(keys, facts), t) == FactsRowCount(facts, t)
  {
    hide LinksResolve, Count, OwnRows, LinksOf, FactRowCount;
    if facts == [] {
      CountNothing(t);
    } else {
      var (n, last) := (|facts| - 1, facts[|facts| - 1]);
      CountFacts(keys, facts[..n], t);
      CountOfFact(keys, last, n, t);
      CountAppend(FactRows(keys, facts[..n]), OwnRows(keys, last, n), t);
      CountAppend(LinkRows(keys, facts[..n]), LinksOf(keys, last), t);
    }
  }

  lemma CountNothing(t: Table)
    ensures Count([], t) == 0
  {
  }

  lemma CountOfFact(keys: Keys, f: Fact, i: nat, t: Table)
    requires LinksResolve(keys, f) && !Delivers(t)
    ensures Count(OwnRows(keys, f, i), t) + Count(LinksOf(keys, f), t) == FactRowCount(f, t)
  {
    hide LinksResolve, Count, OwnRows, LinksOf;
    CountOwn(keys, f, i, t);
    CountLinks(keys, f, t);
  }

  lemma {:induction false} CountFactOccurrences(keys: Keys, facts: seq<Fact>)
    ensures Count(FactRows(keys, facts), FactOccurrence) == |facts|
  {
    if facts != [] {
      var n := |facts| - 1;
      CountFactOccurrences(keys, facts[..n]);
      CountOwn(keys, facts[n], n, FactOccurrence);
      CountAppend(FactRows(keys, facts[..n]), OwnRows(keys, facts[n], n), FactOccurrence);
    }
  }

  lemma {:induction false} CountProjections(keys: Keys, projections: seq<Projection>, before: seq<Row>, t: Table)
    requires forall q :: q in projections ==> ProjectionResolves(keys, q)
    ensures Count(ProjectionRows(keys, projections, before), t) == ProjectionsRowCount(projections, t)
  {
    hide ProjectionResolves;
    if projections != [] {
      var n := |projections| - 1;
      var (init, q) := (ProjectionRows(keys, projections[..n], before), projections[n]);
      var (pk, facets) := (Count(before + init, HeadTable(q)), ProjectionsRowCount(projections[..n], SupportFacet));
      CountProjections(keys, projections[..n], before, t);
      CountProjection(keys, q, pk, facets, t);
      CountAppend(init, RowsOfProjection(keys, q, pk, facets), t);
    }
  }
}

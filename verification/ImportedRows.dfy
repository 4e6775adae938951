/** Which rows an import leaves behind, row by row: every column of every row is read off the
    profile, and the keys in it are the ranks of the rows they stand for
    (backend/scripts/ingest_existing_profile.py). */
module ImportedRows {
  import opened Wrappers
  import opened ProfilePack
  import opened ProfileImport
  import opened DeliveryRoles
  import opened ProfileImporter

  /** The number of rows of each referenced table before the import. */
  datatype Bases = Bases(profile: nat, component: nat, fact: nat, facet: nat, scale: nat, target: nat)

  function BasesOf(rows: seq<Row>, profile: nat): (b: Bases) {
    Bases(profile, Count(rows, SupportComponent), Count(rows, FactOccurrence), Count(rows, SupportFacet),
          Count(rows, SupportScaleProjection), Count(rows, TargetConstraint))
  }

  predicate SameKind(a: Projection, b: Projection) {
    a.TargetConstraints? == b.TargetConstraints? && a.SupportFacets? == b.SupportFacets?
  }

  /** How many projections of the kind come before. */
  function Earlier(qs: seq<Projection>, q: Projection): (n: nat) {
    if qs == [] then 0 else Earlier(qs[..|qs| - 1], q) + (if SameKind(qs[|qs| - 1], q) then 1 else 0)
  }

  /** The fact row with this key has this id. */
  ghost predicate FactKey(p: Profile, b: Bases, pk: nat, id: string) {
    var j := pk - b.fact;
    0 <= j < |AllFacts(p)| && AllFacts(p)[j].id == id
  }

  /** The component row with this key is the last one with this id. */
  ghost predicate ComponentKey(p: Profile, b: Bases, pk: nat, id: string) {
    var j := pk - b.component;
    0 <= j < |p.components| && p.components[j].id == id && forall k :: j < k < |p.components| ==>
      p.components[k].id != id
  }

  /** The i-th fact of the import has this key. */
  ghost predicate FactAt(p: Profile, b: Bases, pk: nat) {
    b.fact <= pk < b.fact + |AllFacts(p)|
  }

  ghost function FactBy(p: Profile, b: Bases, pk: nat): (f: Fact)
    requires FactAt(p, b, pk)
  {
    AllFacts(p)[pk - b.fact]
  }

  /** The ids that a fact relates to in this way. */
  function RelatedBy(f: Fact, relation: string): (ids: seq<string>) {
    if relation == "modifies" then f.modified
    else if relation == "recipient" then f.recipients
    else if relation == "basis" then f.basis
    else []
  }

  function ValuesOf(q: Projection, kind: string): (values: seq<string>)
    requires q.SupportFacets?
  {
    if kind == "activity" then q.activities else if kind == "method" then q.methods else if kind == "item" then q.items
    else []
  }

  predicate At<T(==)>(s: seq<T>, i: int, x: T) {
    0 <= i < |s| && s[i] == x
  }

  /** The rows that belong to one projection whose head row has this key; facets come in order. */
  ghost predicate BelongsTo(p: Profile, b: Bases, q: Projection, pk: nat, facets: nat, row: Row) {
    match row
    case TargetRow(profile) => q.TargetConstraints? && profile == b.profile
    case TargetSourceRow(constraint, fact, role, o) =>
      q.TargetConstraints? && constraint == pk
      && (|| (role == "positive" && o < |q.positive| && FactKey(p, b, fact, q.positive[o]))
          || (role == "exclusion" && 0 <= o - |q.positive| < |q.exclusions|
             && FactKey(p, b, fact, q.exclusions[o - |q.positive|])))
    case DimensionRow(constraint, dimension, value, o) =>
      q.TargetConstraints? && constraint == pk
      && (|| (dimension == "entity_types" && At(q.entityTypes, o, value))
          || (dimension == "regions" && At(q.regions, o - |q.entityTypes|, value))
          || (dimension == "industries" && At(q.industries, o - |q.entityTypes| - |q.regions|, value)))
    case FacetRow(profile, o) => q.SupportFacets? && profile == b.profile && o == facets
    case FacetSourceRow(facet, fact, o) =>
      q.SupportFacets? && facet == pk && o < |q.sources| && FactKey(p, b, fact, q.sources[o])
    case FacetValueRow(facet, kind, value, o) => q.SupportFacets? && facet == pk && At(ValuesOf(q, kind), o, value)
    case ScaleRow(profile) => q.SupportScale? && profile == b.profile
    case MeasureRow(scale, fact, body, o) =>
      q.SupportScale? && scale == pk && o < |q.measures| && q.measures[o].body == body
        && FactKey(p, b, fact, q.measures[o].source)
    case _ => false
  }

  /** The key of the n-th projection's head row. */
  function HeadKey(p: Profile, b: Bases, n: nat): (pk: nat)
    requires n < |p.projections|
  {
    var q := p.projections[n];
    (match q
     case TargetConstraints(_, _, _, _, _) => b.target
     case SupportFacets(_, _, _, _) => b.facet
     case SupportScale(_) => b.scale) + Earlier(p.projections[..n], q)
  }

  function FacetsBefore(qs: seq<Projection>): (n: nat) {
    if qs == [] then 0 else FacetsBefore(qs[..|qs| - 1]) + (if qs[|qs| - 1].SupportFacets? then 1 else 0)
  }

  ghost predicate OfProjection(p: Profile, b: Bases, n: nat, row: Row)
    requires n < |p.projections|
  {
    BelongsTo(p, b, p.projections[n], HeadKey(p, b, n), FacetsBefore(p.projections[..n]), row)
  }

  /** The row that an import of the profile leaves behind, delivery tables apart. */
  ghost predicate Expected(p: Profile, b: Bases, row: Row) {
    match row
    case ComponentRow(profile, id, o) => profile == b.profile && o < |p.components| && p.components[o].id == id
    case FactRow(profile, id, field, component, o) =>
      && profile == b.profile && o < |AllFacts(p)| && AllFacts(p)[o].id == id && AllFacts(p)[o].field == field
      && (match component
          case Some(pk) => AllFacts(p)[o].component.Some? && ComponentKey(p, b, pk, AllFacts(p)[o].component.value)
          case None => AllFacts(p)[o].component.None? || AllFacts(p)[o].component.value !in ComponentIds(p.components))
    case EvidenceRow(fact, content, o) => FactAt(p, b, fact) && At(FactBy(p, b, fact).evidence, o, content)
    case ContextRow(fact, content, o) => FactAt(p, b, fact) && At(FactBy(p, b, fact).context, o, content)
    case RelationRow(source, target, relation) =>
      FactAt(p, b, source) && exists id :: id in RelatedBy(FactBy(p, b, source), relation) && FactKey(p, b, target, id)
    case ApplicabilityRow(fact, component) =>
      FactAt(p, b, fact) && exists id :: id in FactBy(p, b, fact).applicability && ComponentKey(p, b, component, id)
    case _ => exists n: nat :: n < |p.projections| && OfProjection(p, b, n, row)
  }

  // ---------------------------------------------------------------- one list of rows

  lemma {:induction false} ComponentIn(profile: nat, components: seq<Component>, row: Row)
    ensures row in ComponentRows(profile, components) <==>
              row.ComponentRow? && row.profile == profile && row.ordinal < |components|
                && components[row.ordinal].id == row.id
  {
    if components != [] {
      ComponentIn(profile, components[..|components| - 1], row);
    }
  }

  lemma {:induction false} EvidenceIn(fact: nat, evidence: seq<string>, row: Row)
    ensures row in EvidenceRows(fact, evidence)
            <==> row.EvidenceRow? && row.fact == fact && At(evidence, row.ordinal, row.content)
  {
    if evidence != [] {
      EvidenceIn(fact, evidence[..|evidence| - 1], row);
    }
  }

  lemma {:induction false} ContextIn(fact: nat, context: seq<string>, row: Row)
    ensures row in ContextRows(fact, context)
            <==> row.ContextRow? && row.fact == fact && At(context, row.ordinal, row.content)
  {
    if context != [] {
      ContextIn(fact, context[..|context| - 1], row);
    }
  }

  lemma {:induction false} RelationIn(keys: Keys, source: nat, targets: seq<string>, relation: string, row: Row)
    requires AllFactsKnown(keys, targets)
    ensures row in RelationRows(keys, source, targets, relation) <==>
              row.RelationRow? && row.source == source && row.relation == relation
              && exists id :: id in targets && FactPk(keys, id) == Some(row.target)
  {
    hide FactPk;
    if targets != [] {
      var (init, last) := (targets[..|targets| - 1], targets[|targets| - 1]);
      RelationIn(keys, source, init, relation, row);
      assert targets == init + [last];
    }
  }

  lemma {:induction false} ApplicabilityIn(keys: Keys, source: nat, components: seq<string>, row: Row)
    requires AllComponentsKnown(keys, components)
    ensures row in ApplicabilityRows(keys, source, components) <==>
              row.ApplicabilityRow? && row.fact == source && exists id ::
                id in components && ComponentPk(keys, id) == Some(row.componentPk)
  {
    hide ComponentPk;
    if components != [] {
      var (init, last) := (components[..|components| - 1], components[|components| - 1]);
      ApplicabilityIn(keys, source, init, row);
      assert components == init + [last];
    }
  }

  lemma {:induction false} TargetSourceIn(keys: Keys, constraint: nat, ids: seq<string>, role: string, from: nat,
                                          row: Row)
    requires AllFactsKnown(keys, ids)
    ensures row in TargetSources(keys, constraint, ids, role, from) <==>
              row.TargetSourceRow? && row.constraint == constraint && row.sourceRole == role
              && 0 <= row.ordinal - from < |ids| && FactPk(keys, ids[row.ordinal - from]) == Some(row.fact)
  {
    hide FactPk;
    if ids != [] {
      TargetSourceIn(keys, constraint, ids[..|ids| - 1], role, from, row);
    }
  }

  lemma {:induction false} DimensionIn(constraint: nat, values: seq<string>, dimension: string, from: nat, row: Row)
    ensures row in Dimensions(constraint, values, dimension, from) <==>
              row.DimensionRow? && row.constraint == constraint && row.dimension == dimension
              && At(values, row.ordinal - from, row.value)
  {
    if values != [] {
      DimensionIn(constraint, values[..|values| - 1], dimension, from, row);
    }
  }

  lemma {:induction false} FacetSourceIn(keys: Keys, facet: nat, ids: seq<string>, row: Row)
    requires AllFactsKnown(keys, ids)
    ensures row in FacetSources(keys, facet, ids) <==>
              row.FacetSourceRow? && row.facet == facet && row.ordinal < |ids|
                && FactPk(keys, ids[row.ordinal]) == Some(row.fact)
  {
    hide FactPk;
    if ids != [] {
      FacetSourceIn(keys, facet, ids[..|ids| - 1], row);
    }
  }

  lemma {:induction false} FacetValueIn(facet: nat, values: seq<string>, kind: string, row: Row)
    ensures row in FacetValues(facet, values, kind) <==>
              row.FacetValueRow? && row.facet == facet && row.kind == kind && At(values, row.ordinal, row.value)
  {
    if values != [] {
      FacetValueIn(facet, values[..|values| - 1], kind, row);
    }
  }

  lemma {:induction false} MeasureIn(keys: Keys, scale: nat, measures: seq<Measure>, row: Row)
    requires forall m :: m in measures ==> m.source in keys.factIds
    ensures row in MeasureRows(keys, scale, measures) <==>
              row.MeasureRow? && row.scale == scale && row.ordinal < |measures|
                && measures[row.ordinal].body == row.body
              && FactPk(keys, measures[row.ordinal].source) == Some(row.fact)
  {
    hide FactPk;
    if measures != [] {
      MeasureIn(keys, scale, measures[..|measures| - 1], row);
    }
  }

  // ---------------------------------------------------------------- keys

  lemma {:induction false} LastIndexExactly(ids: seq<string>, id: string, j: nat)
    ensures LastIndex(ids, id) == Some(j) <==> j < |ids| && ids[j] == id && forall k :: j < k < |ids| ==> ids[k] != id
  {
    if ids != [] {
      LastIndexExactly(ids[..|ids| - 1], id, j);
    }
  }

  /** The importer's dictionaries give each id the key of the row that stands for it. */
  ghost predicate KeysAgree(p: Profile, b: Bases, keys: Keys) {
    && keys.profile == b.profile && keys.factBase == b.fact
    && keys.factIds == FactIds(AllFacts(p)) && keys.componentIds == ComponentIds(p.components)
    && (forall id, pk: nat :: FactPk(keys, id) == Some(pk) <==> FactKey(p, b, pk, id))
    && (forall id, pk: nat :: ComponentPk(keys, id) == Some(pk) <==> ComponentKey(p, b, pk, id))
  }

  lemma DictionariesAgree(rows: seq<Row>, profile: nat, p: Profile)
    ensures KeysAgree(p, BasesOf(rows, profile), KeysFor(rows, profile, p))
  {
    var (b, keys) := (BasesOf(rows, profile), KeysFor(rows, profile, p));
    forall id, pk: nat ensures FactPk(keys, id) == Some(pk) <==> FactKey(p, b, pk, id) {
      FactKeyExactly(rows, profile, p, id, pk);
    }
    forall id, pk: nat ensures ComponentPk(keys, id) == Some(pk) <==> ComponentKey(p, b, pk, id) {
      ComponentKeyExactly(rows, profile, p, id, pk);
    }
    hide FactPk, FactKey, ComponentPk, ComponentKey, AllFacts, Count;
  }

  lemma OneFactPerId(p: Profile)
    ensures Distinct(FactIds(AllFacts(p)))
  {
    FoldedIdsAreDistinct(EveryFact(p));
  }

  lemma FactKeyExactly(rows: seq<Row>, profile: nat, p: Profile, id: string, pk: nat)
    ensures FactPk(KeysFor(rows, profile, p), id) == Some(pk) <==> FactKey(p, BasesOf(rows, profile), pk, id)
  {
    var (base, facts) := (Count(rows, FactOccurrence), AllFacts(p));
    OneFactPerId(p);
    hide AllFacts, Count;
    if pk >= base {
      LastIndexExactly(FactIds(facts), id, pk - base);
    }
    hide LastIndex;
  }

  lemma ComponentKeyExactly(rows: seq<Row>, profile: nat, p: Profile, id: string, pk: nat)
    ensures ComponentPk(KeysFor(rows, profile, p), id) == Some(pk) <==> ComponentKey(p, BasesOf(rows, profile), pk, id)
  {
    var base := Count(rows, SupportComponent);
    hide AllFacts, Count;
    if pk >= base {
      LastIndexExactly(ComponentIds(p.components), id, pk - base);
    }
    hide LastIndex;
  }

  // ---------------------------------------------------------------- facts and links

  lemma OwnIn(keys: Keys, f: Fact, i: nat, row: Row)
    ensures row in OwnRows(keys, f, i) <==>
              || row == FactRow(keys.profile, f.id, f.field, if f.component.Some? then
                ComponentPk(keys, f.component.value) else None, i)
              || (row.EvidenceRow? && row.fact == keys.factBase + i && At(f.evidence, row.ordinal, row.content))
              || (row.ContextRow? && row.fact == keys.factBase + i && At(f.context, row.ordinal, row.content))
  {
    EvidenceIn(keys.factBase + i, f.evidence, row);
    ContextIn(keys.factBase + i, f.context, row);
    hide EvidenceRows, ContextRows, ComponentPk, At;
  }

  lemma {:induction false} FactsIn(keys: Keys, facts: seq<Fact>, row: Row)
    ensures row in FactRows(keys, facts) <==> exists i :: 0 <= i < |facts| && row in OwnRows(keys, facts[i], i)
  {
    hide OwnRows;
    if facts != [] {
      var (n, init) := (|facts| - 1, facts[..|facts| - 1]);
      FactsIn(keys, init, row);
      if i :| 0 <= i < |init| && row in OwnRows(keys, init[i], i) {
        assert facts[i] == init[i];
      }
      if i :| 0 <= i < |facts| && row in OwnRows(keys, facts[i], i) {
        assert i < n ==> init[i] == facts[i];
      }
    }
  }

  lemma LinksIn(keys: Keys, f: Fact, row: Row)
    requires LinksResolve(keys, f)
    ensures row in LinksOf(keys, f) <==>
              || (row.RelationRow? && FactPk(keys, f.id) == Some(row.source)
                  && exists id :: id in RelatedBy(f, row.relation) && FactPk(keys, id) == Some(row.target))
              || (row.ApplicabilityRow? && FactPk(keys, f.id) == Some(row.fact)
                  && exists id :: id in f.applicability && ComponentPk(keys, id) == Some(row.componentPk))
  {
    var source := FactPk(keys, f.id).value;
    RelationIn(keys, source, f.modified, "modifies", row);
    RelationIn(keys, source, f.recipients, "recipient", row);
    RelationIn(keys, source, f.basis, "basis", row);
    ApplicabilityIn(keys, source, f.applicability, row);
    hide RelationRows, ApplicabilityRows, FactPk, ComponentPk;
  }

  lemma {:induction false} LinkRowsIn(keys: Keys, facts: seq<Fact>, row: Row)
    requires AllLinked(keys, facts)
    ensures row in LinkRows(keys, facts) <==> exists f :: f in facts && row in LinksOf(keys, f)
  {
    hide LinksOf, LinksResolve;
    if facts != [] {
      LinkRowsIn(keys, facts[..|facts| - 1], row);
      assert facts == facts[..|facts| - 1] + [facts[|facts| - 1]];
    }
  }

  // ---------------------------------------------------------------- projections

  lemma TargetIn(p: Profile, b: Bases, keys: Keys, q: Projection, pk: nat, facets: nat, row: Row)
    requires KeysAgree(p, b, keys) && ProjectionResolves(keys, q) && q.TargetConstraints?
    ensures row in RowsOfProjection(keys, q, pk, facets) <==> BelongsTo(p, b, q, pk, facets, row)
  {
    TargetRowsBelong(p, b, keys, q, pk, facets, row);
    hide KeysAgree, BelongsTo, TargetSources, Dimensions, FactPk, TargetSourceOf, DimensionOf;
    var (s, t) := (TargetSources(keys, pk, q.positive, "positive", 0),
                   TargetSources(keys, pk, q.exclusions, "exclusion", |q.positive|));
    var (d, e) := (Dimensions(pk, q.entityTypes, "entity_types", 0),
         Dimensions(pk, q.regions, "regions", |q.entityTypes|));
    var f := Dimensions(pk, q.industries, "industries", |q.entityTypes| + |q.regions|);
    assert RowsOfProjection(keys, q, pk, facets) == [TargetRow(keys.profile)] + s + t + d + e + f;
    hide RowsOfProjection;
    InSix([TargetRow(keys.profile)], s, t, d, e, f, row);
    TargetPartsIn(keys, q, pk, row);
  }

  lemma TargetPartsIn(keys: Keys, q: Projection, pk: nat, row: Row)
    requires q.TargetConstraints? && AllFactsKnown(keys, q.positive) && AllFactsKnown(keys, q.exclusions)
    ensures row in TargetSources(keys, pk, q.positive, "positive", 0)
            <==> TargetSourceOf(keys, pk, q.positive, "positive", 0, row)
    ensures row in TargetSources(keys, pk, q.exclusions, "exclusion", |q.positive|)
            <==> TargetSourceOf(keys, pk, q.exclusions, "exclusion", |q.positive|, row)
    ensures row in Dimensions(pk, q.entityTypes, "entity_types", 0)
            <==> DimensionOf(pk, q.entityTypes, "entity_types", 0, row)
    ensures row in Dimensions(pk, q.regions, "regions", |q.entityTypes|)
            <==> DimensionOf(pk, q.regions, "regions", |q.entityTypes|, row)
    ensures row in Dimensions(pk, q.industries, "industries", |q.entityTypes| + |q.regions|)
            <==> DimensionOf(pk, q.industries, "industries", |q.entityTypes| + |q.regions|, row)
  {
    TargetSourceIn(keys, pk, q.positive, "positive", 0, row);
    TargetSourceIn(keys, pk, q.exclusions, "exclusion", |q.positive|, row);
    DimensionIn(pk, q.entityTypes, "entity_types", 0, row);
    DimensionIn(pk, q.regions, "regions", |q.entityTypes|, row);
    DimensionIn(pk, q.industries, "industries", |q.entityTypes| + |q.regions|, row);
    hide TargetSources, Dimensions, FactPk, At;
  }

  lemma InSix<T>(a: seq<T>, b: seq<T>, c: seq<T>, d: seq<T>, e: seq<T>, f: seq<T>, x: T)
    ensures x in a + b + c + d + e + f <==> x in a || x in b || x in c || x in d || x in e || x in f
  {
  }

  /** The rows of a target constraint, by the keys in the importer's hands. */
  ghost predicate TargetSourceOf(keys: Keys, pk: nat, ids: seq<string>, role: string, from: nat, row: Row) {
    row.TargetSourceRow? && row.constraint == pk && row.sourceRole == role
    && 0 <= row.ordinal - from < |ids| && FactPk(keys, ids[row.ordinal - from]) == Some(row.fact)
  }

  ghost predicate DimensionOf(pk: nat, values: seq<string>, dimension: string, from: nat, row: Row) {
    row.DimensionRow? && row.constraint == pk && row.dimension == dimension && At(values, row.ordinal - from, row.value)
  }

  lemma TargetRowsBelong(p: Profile, b: Bases, keys: Keys, q: Projection, pk: nat, facets: nat, row: Row)
    requires KeysAgree(p, b, keys) && q.TargetConstraints?
    ensures BelongsTo(p, b, q, pk, facets, row) <==>
              || row == TargetRow(keys.profile)
              || TargetSourceOf(keys, pk, q.positive, "positive", 0, row)
              || TargetSourceOf(keys, pk, q.exclusions, "exclusion", |q.positive|, row)
              || DimensionOf(pk, q.entityTypes, "entity_types", 0, row)
              || DimensionOf(pk, q.regions, "regions", |q.entityTypes|, row)
              || DimensionOf(pk, q.industries, "industries", |q.entityTypes| + |q.regions|, row)
  {
    hide FactPk, ComponentPk, FactKey, ComponentKey, At;
  }

  lemma FacetsIn(p: Profile, b: Bases, keys: Keys, q: Projection, pk: nat, facets: nat, row: Row)
    requires KeysAgree(p, b, keys) && ProjectionResolves(keys, q) && q.SupportFacets?
    ensures row in RowsOfProjection(keys, q, pk, facets) <==> BelongsTo(p, b, q, pk, facets, row)
  {
    FacetSourceIn(keys, pk, q.sources, row);
    FacetValueIn(pk, q.activities, "activity", row);
    FacetValueIn(pk, q.methods, "method", row);
    FacetValueIn(pk, q.items, "item", row);
    hide FacetSources, FacetValues, FactPk, ComponentPk, FactKey, ComponentKey;
  }

  lemma ScaleIn(p: Profile, b: Bases, keys: Keys, q: Projection, pk: nat, facets: nat, row: Row)
    requires KeysAgree(p, b, keys) && ProjectionResolves(keys, q) && q.SupportScale?
    ensures row in RowsOfProjection(keys, q, pk, facets) <==> BelongsTo(p, b, q, pk, facets, row)
  {
    MeasureIn(keys, pk, q.measures, row);
    hide MeasureRows, FactPk, ComponentPk, FactKey, ComponentKey;
  }

  lemma ProjectionIn(p: Profile, b: Bases, keys: Keys, q: Projection, pk: nat, facets: nat, row: Row)
    requires KeysAgree(p, b, keys) && ProjectionResolves(keys, q)
    ensures row in RowsOfProjection(keys, q, pk, facets) <==> BelongsTo(p, b, q, pk, facets, row)
  {
    hide *;
    if q.TargetConstraints? {
      TargetIn(p, b, keys, q, pk, facets, row);
    } else if q.SupportFacets? {
      FacetsIn(p, b, keys, q, pk, facets, row);
    } else {
      ScaleIn(p, b, keys, q, pk, facets, row);
    }
  }

  /** The key and the ordinal that the importer gives to a projection's head row. */
  lemma {:induction false} HeadsCounted(keys: Keys, qs: seq<Projection>, before: seq<Row>, q: Projection)
    requires forall r :: r in qs ==> ProjectionResolves(keys, r)
    ensures Count(before + ProjectionRows(keys, qs, before), HeadTable(q))
            == Count(before, HeadTable(q)) + Earlier(qs, q)
    ensures ProjectionsRowCount(qs, SupportFacet) == FacetsBefore(qs)
  {
    CountAppend(before, ProjectionRows(keys, qs, before), HeadTable(q));
    CountProjections(keys, qs, before, HeadTable(q));
    EarlierCounted(qs, q);
    hide Count;
  }

  lemma {:induction false} EarlierCounted(qs: seq<Projection>, q: Projection)
    ensures ProjectionsRowCount(qs, HeadTable(q)) == Earlier(qs, q)
    ensures ProjectionsRowCount(qs, SupportFacet) == FacetsBefore(qs)
  {
    if qs != [] {
      EarlierCounted(qs[..|qs| - 1], q);
    }
  }

  function KeyBefore(keys: Keys, qs: seq<Projection>, n: nat, before: seq<Row>): (pk: nat)
    requires n < |qs|
  {
    Count(before, HeadTable(qs[n])) + Earlier(qs[..n], qs[n])
  }

  ghost predicate RowOfNth(keys: Keys, qs: seq<Projection>, n: nat, before: seq<Row>, row: Row)
    requires forall q :: q in qs ==> ProjectionResolves(keys, q)
  {
    n < |qs| && row in RowsOfProjection(keys, qs[n], KeyBefore(keys, qs, n, before), FacetsBefore(qs[..n]))
  }

  lemma {:induction false} ProjectionRowsIn(keys: Keys, qs: seq<Projection>, before: seq<Row>, row: Row)
    requires forall q :: q in qs ==> ProjectionResolves(keys, q)
    ensures row in ProjectionRows(keys, qs, before) <==> exists n: nat :: RowOfNth(keys, qs, n, before, row)
  {
    hide RowsOfProjection, ProjectionResolves, Count, HeadTable;
    if qs != [] {
      var (n, init) := (|qs| - 1, qs[..|qs| - 1]);
      ProjectionRowsIn(keys, init, before, row);
      HeadsCounted(keys, init, before, qs[n]);
      assert qs[..n] == init;
      forall k: nat | k < n ensures RowOfNth(keys, init, k, before, row) <==> RowOfNth(keys, qs, k, before, row) {
        assert init[k] == qs[k] && init[..k] == qs[..k];
      }
      hide Earlier, FacetsBefore, ProjectionsRowCount;
      assert RowOfNth(keys, qs, n, before, row)
             <==> row in RowsOfProjection(keys, qs[n], KeyBefore(keys, qs, n, before), FacetsBefore(init));
      hide RowOfNth;
      LastOrEarlier(keys, init, qs, before, row);
    }
  }

  lemma LastOrEarlier(keys: Keys, init: seq<Projection>, qs: seq<Projection>, before: seq<Row>, row: Row)
    requires |qs| == |init| + 1 && (forall q :: q in qs ==> ProjectionResolves(keys, q))
    requires forall q :: q in init ==> ProjectionResolves(keys, q)
    requires forall k: nat :: k < |init| ==>
               (RowOfNth(keys, init, k, before, row) <==> RowOfNth(keys, qs, k, before, row))
    ensures (exists n: nat :: RowOfNth(keys, qs, n, before, row)) <==>
              || (exists n: nat :: RowOfNth(keys, init, n, before, row))
              || RowOfNth(keys, qs, |init|, before, row)
  {
    hide RowsOfProjection, ProjectionResolves, Count, HeadTable, Earlier, FacetsBefore, KeyBefore;
    if n: nat :| RowOfNth(keys, qs, n, before, row) {
      assert n < |init| ==> RowOfNth(keys, init, n, before, row);
    }
    if n: nat :| RowOfNth(keys, init, n, before, row) {
      assert RowOfNth(keys, qs, n, before, row);
    }
  }

  // ---------------------------------------------------------------- the rows of an import

  predicate IsOwn(row: Row) { row.FactRow? || row.EvidenceRow? || row.ContextRow? }
  predicate IsLink(row: Row) { row.RelationRow? || row.ApplicabilityRow? }

  lemma OwnExpected(p: Profile, b: Bases, keys: Keys, i: nat, row: Row)
    requires KeysAgree(p, b, keys) && i < |AllFacts(p)|
    ensures row in OwnRows(keys, AllFacts(p)[i], i) <==>
              && IsOwn(row) && Expected(p, b, row)
              && i == if row.FactRow? then row.ordinal else row.fact - b.fact
  {
    OwnIn(keys, AllFacts(p)[i], i, row);
    hide OwnRows, FactPk, FactKey, ComponentKey, At, AllFacts, OfProjection, RelatedBy, Earlier, FacetsBefore,
      ComponentPk;
    if row.FactRow? && row.component.Some? && AllFacts(p)[i].component.Some? {
      assert ComponentPk(keys, AllFacts(p)[i].component.value) == Some(row.component.value)
             <==> ComponentKey(p, b, row.component.value, AllFacts(p)[i].component.value);
    }
  }

  lemma FactRowsExpected(p: Profile, b: Bases, keys: Keys, row: Row)
    requires KeysAgree(p, b, keys)
    ensures row in FactRows(keys, AllFacts(p)) <==> IsOwn(row) && Expected(p, b, row)
  {
    FactsIn(keys, AllFacts(p), row);
    forall i: nat | i < |AllFacts(p)|
      ensures row in OwnRows(keys, AllFacts(p)[i], i) <==>
                && IsOwn(row) && Expected(p, b, row)
                && i == if row.FactRow? then row.ordinal else row.fact - b.fact
    {
      OwnExpected(p, b, keys, i, row);
    }
    hide KeysAgree, OwnRows, FactRows, AllFacts, OfProjection, ComponentKey, FactKey;
    if IsOwn(row) && Expected(p, b, row) {
      var i: nat := if row.FactRow? then row.ordinal else row.fact - b.fact;
      assert row in OwnRows(keys, AllFacts(p)[i], i);
    }
  }

  lemma OneFactPerKey(p: Profile, b: Bases, pk: nat, f: Fact)
    requires f in AllFacts(p)
    ensures FactKey(p, b, pk, f.id) <==> FactAt(p, b, pk) && FactBy(p, b, pk) == f
  {
    OneFactPerId(p);
    var facts := AllFacts(p);
    hide AllFacts;
    var i :| 0 <= i < |facts| && facts[i] == f;
    var j := pk - b.fact;
    if 0 <= j < i {
      assert FactIds(facts)[j] != FactIds(facts)[i];
    } else if i < j < |facts| {
      assert FactIds(facts)[i] != FactIds(facts)[j];
    }
  }

  lemma LinkExpected(p: Profile, b: Bases, keys: Keys, f: Fact, row: Row)
    requires KeysAgree(p, b, keys) && LinksResolve(keys, f) && f in AllFacts(p)
    ensures row in LinksOf(keys, f) <==>
              && IsLink(row) && Expected(p, b, row)
              && FactBy(p, b, if row.RelationRow? then row.source else row.fact) == f
  {
    LinksIn(keys, f, row);
    if IsLink(row) {
      OneFactPerKey(p, b, if row.RelationRow? then row.source else row.fact, f);
    }
    hide LinksOf, LinksResolve, FactPk, ComponentPk, FactKey, ComponentKey, FactBy, FactAt, AllFacts, OfProjection,
      RelatedBy;
    assert row.RelationRow? ==> (FactPk(keys, f.id) == Some(row.source) <==> FactKey(p, b, row.source, f.id));
    assert row.ApplicabilityRow? ==> (FactPk(keys, f.id) == Some(row.fact) <==> FactKey(p, b, row.fact, f.id));
  }

  lemma LinkRowsExpected(p: Profile, b: Bases, keys: Keys, row: Row)
    requires KeysAgree(p, b, keys) && AllLinked(keys, AllFacts(p))
    ensures row in LinkRows(keys, AllFacts(p)) <==> IsLink(row) && Expected(p, b, row)
  {
    LinkRowsIn(keys, AllFacts(p), row);
    forall f | f in AllFacts(p)
      ensures row in LinksOf(keys, f) <==>
                && IsLink(row) && Expected(p, b, row)
                && FactBy(p, b, if row.RelationRow? then row.source else row.fact) == f
    {
      LinkExpected(p, b, keys, f, row);
    }
    hide KeysAgree, LinksOf, LinkRows, AllFacts, OfProjection, ComponentKey, FactKey, RelatedBy;
    if IsLink(row) && Expected(p, b, row) {
      assert FactBy(p, b, if row.RelationRow? then row.source else row.fact) in AllFacts(p);
    }
  }

  lemma HeadsBeforeProjections(rows: seq<Row>, profile: nat, p: Profile, q: Projection)
    requires Resolves(KeysFor(rows, profile, p), p)
    ensures Count(WithFacts(rows, profile, p), HeadTable(q)) == Count(rows, HeadTable(q))
  {
    var (keys, facts, t) := (KeysFor(rows, profile, p), AllFacts(p), HeadTable(q));
    var (a, b, c) := (ComponentRows(profile, p.components), FactRows(keys, facts), LinkRows(keys, facts));
    CountUniform(a, SupportComponent, t);
    CountFacts(keys, facts, t);
    NoHeadsAmongFacts(facts, t);
    hide Count, ComponentRows, FactRows, LinkRows, AllFacts;
    CountAppend(rows, a, t);
    CountAppend(rows + a, b, t);
    CountAppend(rows + a + b, c, t);
  }

  lemma {:induction false} NoHeadsAmongFacts(facts: seq<Fact>, t: Table)
    requires t == TargetConstraint || t == SupportFacet || t == SupportScaleProjection
    ensures FactsRowCount(facts, t) == 0
  {
    if facts != [] {
      NoHeadsAmongFacts(facts[..|facts| - 1], t);
    }
  }

  lemma OneProjectionExpected(rows: seq<Row>, profile: nat, p: Profile, n: nat, row: Row)
    requires Resolves(KeysFor(rows, profile, p), p) && n < |p.projections|
    requires forall q :: q in p.projections ==> ProjectionResolves(KeysFor(rows, profile, p), q)
    ensures RowOfNth(KeysFor(rows, profile, p), p.projections, n, WithFacts(rows, profile, p), row)
            <==> OfProjection(p, BasesOf(rows, profile), n, row)
  {
    var (b, keys, qs, before) := (BasesOf(rows, profile), KeysFor(rows, profile, p), p.projections,
         WithFacts(rows, profile, p));
    DictionariesAgree(rows, profile, p);
    HeadsBeforeProjections(rows, profile, p, qs[n]);
    hide KeysAgree, RowsOfProjection, BelongsTo, WithFacts, Count, Earlier, FacetsBefore, KeysFor;
    assert KeyBefore(keys, qs, n, before) == HeadKey(p, b, n);
    ProjectionIn(p, b, keys, qs[n], KeyBefore(keys, qs, n, before), FacetsBefore(qs[..n]), row);
  }

  lemma OnlyOfTheProjections(keys: Keys, qs: seq<Projection>, before: seq<Row>, row: Row)
    requires forall q :: q in qs ==> ProjectionResolves(keys, q)
    ensures forall n: nat :: RowOfNth(keys, qs, n, before, row) ==> n < |qs|
  {
  }

  lemma ProjectionRowsExpected(rows: seq<Row>, profile: nat, p: Profile, row: Row)
    requires Resolves(KeysFor(rows, profile, p), p)
    ensures row in ProjectionRows(KeysFor(rows, profile, p), p.projections, WithFacts(rows, profile, p)) <==>
              exists n: nat :: n < |p.projections| && OfProjection(p, BasesOf(rows, profile), n, row)
  {
    hide *;
    ResolvedProjections(KeysFor(rows, profile, p), p);
    var (keys, qs, before) := (KeysFor(rows, profile, p), p.projections, WithFacts(rows, profile, p));
    ProjectionRowsIn(keys, qs, before, row);
    forall n: nat | n < |qs|
      ensures RowOfNth(keys, qs, n, before, row) <==> OfProjection(p, BasesOf(rows, profile), n, row)
    {
      OneProjectionExpected(rows, profile, p, n, row);
    }
    OnlyOfTheProjections(keys, qs, before, row);
  }

  lemma ResolvedProjections(keys: Keys, p: Profile)
    requires Resolves(keys, p)
    ensures AllLinked(keys, AllFacts(p)) && forall q :: q in p.projections ==> ProjectionResolves(keys, q)
  {
  }

  /** After an import the tables hold what they held, and exactly the expected rows besides. */
  lemma RowsOfAnImport(rows: seq<Row>, profile: nat, p: Profile, row: Row)
    requires Resolves(KeysFor(rows, profile, p), p)
    ensures row in WithProjections(rows, profile, p) <==> row in rows || Expected(p, BasesOf(rows, profile), row)
  {
    hide *;
    var (b, keys) := (BasesOf(rows, profile), KeysFor(rows, profile, p));
    ResolvedProjections(keys, p);
    DictionariesAgree(rows, profile, p);
    LayersOf(rows, profile, p, row);
    ComponentIn(profile, p.components, row);
    FactRowsExpected(p, b, keys, row);
    LinkRowsExpected(p, b, keys, row);
    ProjectionRowsExpected(rows, profile, p, row);
    ExpectedByKind(p, b, row);
  }

  lemma LayersOf(rows: seq<Row>, profile: nat, p: Profile, row: Row)
    requires Resolves(KeysFor(rows, profile, p), p)
    ensures var keys := KeysFor(rows, profile, p);
            row in WithProjections(rows, profile, p) <==>
              || row in rows || row in ComponentRows(profile, p.components) || row in FactRows(keys, AllFacts(p))
              || row in LinkRows(keys, AllFacts(p))
                 || row in ProjectionRows(keys, p.projections, WithFacts(rows, profile, p))
    ensures BasesOf(rows, profile).profile == profile
  {
    hide ComponentRows, FactRows, LinkRows, ProjectionRows, AllFacts, Count;
  }

  lemma ExpectedByKind(p: Profile, b: Bases, row: Row)
    ensures Expected(p, b, row) <==>
              || (row.ComponentRow? && row.profile == b.profile && row.ordinal < |p.components|
                 && p.components[row.ordinal].id == row.id)
              || (IsOwn(row) && Expected(p, b, row)) || (IsLink(row) && Expected(p, b, row))
              || exists n: nat :: n < |p.projections| && OfProjection(p, b, n, row)
  {
    hide FactKey, ComponentKey, AllFacts, RelatedBy, At, HeadKey, FacetsBefore;
    if n: nat :| n < |p.projections| && OfProjection(p, b, n, row) {
      assert !row.ComponentRow? && !IsOwn(row) && !IsLink(row);
    }
  }

  // ---------------------------------------------------------------- delivery rows

  predicate IsDelivered(row: Row) { row.RoleRow? || row.OrganizationRow? }

  lemma {:induction false} UntouchedRows(rows: seq<Row>, more: seq<Row>, row: Row)
    requires Keyed(more) && row in rows && !Holds(more, row)
    ensures row in UpsertAll(rows, more)
  {
    if more != [] {
      var (init, last) := (more[..|more| - 1], more[|more| - 1]);
      assert more == init + [last];
      assert Holds(init, row) ==> Holds(more, row);
      UntouchedRows(rows, init, row);
      var all := UpsertAll(rows, init);
      var i :| 0 <= i < |all| && all[i] == row;
      assert last in more && !SameKey(last, row);
      if Holds(all, last) {
        assert Patch(all, last)[i] == row;
      } else {
        assert (all + [last])[i] == row;
      }
    }
  }

  lemma {:induction false} LastIsOfTheKey(more: seq<Row>, a: Row, b: Row)
    requires SameKey(a, b)
    ensures LastWithKey(more, a) == LastWithKey(more, b)
  {
    if more != [] {
      LastIsOfTheKey(more[..|more| - 1], a, b);
    }
  }

  /** A delivery row of the list's keys is there exactly when it is the last of its key. */
  lemma UpsertedRows(rows: seq<Row>, more: seq<Row>, row: Row)
    requires Keyed(more)
    ensures row in UpsertAll(rows, more)
            <==> if Holds(more, row) then LastWithKey(more, row) == Some(row) else row in rows
  {
    UpsertedExactly(rows, more, row);
    if Holds(more, row) {
      assert Holds(UpsertAll(rows, more), row);
      var r :| r in UpsertAll(rows, more) && SameKey(r, row);
      assert SameKey(row, r);
      LastIsOfTheKey(more, row, r);
      UpsertedExactly(rows, more, r);
    } else if row in rows {
      UntouchedRows(rows, more, row);
    }
  }

  lemma {:induction false} LastOfTwo(a: seq<Row>, b: seq<Row>, row: Row)
    ensures LastWithKey(a + b, row) == if Holds(b, row) then LastWithKey(b, row) else LastWithKey(a, row)
  {
    if b == [] {
      assert a + b == a;
    } else {
      var init := b[..|b| - 1];
      LastOfTwo(a, init, row);
      assert (a + b)[..|a + b| - 1] == a + init && b == init + [b[|b| - 1]];
      HoldsOneMore(init, b[|b| - 1], row);
    }
  }

  lemma {:induction false} LastOrganization(fact: nat, organizations: seq<Organization>, row: Row)
    requires row.OrganizationRow? && row.fact == fact
    ensures LastWithKey(OrganizationRows(fact, organizations), row) == Some(row) <==>
              && At(organizations, row.ordinal, Organization(row.block, row.start, row.end, row.value))
              && forall k :: row.ordinal < k < |organizations| ==>
                   SpanOf(organizations[k]) != (row.block, row.start, row.end)
  {
    if organizations != [] {
      var (n, last) := (|organizations| - 1, organizations[|organizations| - 1]);
      var init := organizations[..n];
      var more := OrganizationRow(fact, last.block, last.start, last.end, last.value, n);
      var rows := OrganizationRows(fact, organizations);
      assert rows == OrganizationRows(fact, init) + [more];
      assert rows[..|rows| - 1] == OrganizationRows(fact, init) && rows[|rows| - 1] == more;
      if SpanOf(last) == (row.block, row.start, row.end) {
        assert LastWithKey(rows, row) == Some(more);
        assert organizations[n] == last;
      } else {
        LastOrganization(fact, init, row);
        assert LastWithKey(rows, row) == LastWithKey(OrganizationRows(fact, init), row);
        assert forall k :: 0 <= k < n ==> init[k] == organizations[k];
        OneMoreSpan(organizations, row);
      }
    }
  }

  lemma OneMoreSpan(organizations: seq<Organization>, row: Row)
    requires organizations != [] && row.OrganizationRow?
    requires SpanOf(organizations[|organizations| - 1]) != (row.block, row.start, row.end)
    ensures var (init, wanted) := (organizations[..|organizations| - 1],
              Organization(row.block, row.start, row.end, row.value));
            && (At(organizations, row.ordinal, wanted) <==> At(init, row.ordinal, wanted))
            && ((forall k :: row.ordinal < k < |organizations| ==>
                 SpanOf(organizations[k]) != (row.block, row.start, row.end))
                <==> forall k :: row.ordinal < k < |init| ==> SpanOf(init[k]) != (row.block, row.start, row.end))
  {
    var init := organizations[..|organizations| - 1];
    assert forall k :: 0 <= k < |init| ==> init[k] == organizations[k];
  }

  /** The rows of a delivery fact: its role, and for each span its last organization. */
  ghost predicate DeliversRow(f: Fact, row: Row) {
    && IsDelivery(f)
    && match row
       case RoleRow(_, role) => role == f.role
       case OrganizationRow(_, block, start, end, value, o) =>
         && At(f.organizations, o, Organization(block, start, end, value))
         && forall k :: o < k < |f.organizations| ==> SpanOf(f.organizations[k]) != (block, start, end)
       case _ => false
  }

  lemma LastOfFact(fact: nat, f: Fact, row: Row)
    requires IsDelivered(row) && row.fact == fact && IsDelivery(f)
    ensures LastWithKey(RowsOf(fact, f), row) == Some(row) <==> DeliversRow(f, row)
  {
    var role := RoleRow(fact, f.role);
    LastOfTwo([role], OrganizationRows(fact, f.organizations), row);
    assert [role][..0] == [];
    if row.OrganizationRow? {
      LastOrganization(fact, f.organizations, row);
      assert LastWithKey([role], row) == None;
    }
  }

  lemma NotOfFact(fact: nat, f: Fact, row: Row)
    requires row.RoleRow? || row.OrganizationRow? ==> row.fact != fact
    ensures !Holds(RowsOf(fact, f), row)
  {
  }

  lemma {:induction false} LastDelivered(p: Profile, b: Bases, keys: Keys, n: nat, row: Row)
    requires KeysAgree(p, b, keys) && n <= |AllFacts(p)| && IsDelivered(row)
    requires forall f :: f in AllFacts(p) ==> f.id in keys.factIds
    ensures LastWithKey(DeliveryRows(keys, AllFacts(p)[..n]), row) == Some(row) <==>
              b.fact <= row.fact < b.fact + n && DeliversRow(AllFacts(p)[row.fact - b.fact], row)
    ensures Holds(DeliveryRows(keys, AllFacts(p)[..n]), row) ==> b.fact <= row.fact < b.fact + n
  {
    hide *;
    var facts := AllFacts(p);
    if n == 0 {
      NothingDelivered(keys, facts[..0], row);
    } else {
      LastDelivered(p, b, keys, n - 1, row);
      KeyOfPosition(p, b, keys, n - 1);
      DeliveryStep(keys, facts, n - 1, b.fact + n - 1);
      OneMoreDelivered(DeliveryRows(keys, facts[..n - 1]), b.fact + n - 1, facts[n - 1], row);
    }
  }

  lemma NothingDelivered(keys: Keys, facts: seq<Fact>, row: Row)
    requires facts == []
    ensures LastWithKey(DeliveryRows(keys, facts), row) == None && !Holds(DeliveryRows(keys, facts), row)
  {
  }

  lemma DeliveryStep(keys: Keys, facts: seq<Fact>, i: nat, fact: nat)
    requires i < |facts| && FactPk(keys, facts[i].id) == Some(fact)
    requires forall f :: f in facts ==> f.id in keys.factIds
    ensures DeliveryRows(keys, facts[..i + 1])
         == DeliveryRows(keys, facts[..i]) + (if IsDelivery(facts[i]) then RowsOf(fact, facts[i]) else [])
  {
    hide FactPk, RowsOf;
    assert facts[..i + 1][..i] == facts[..i];
  }

  lemma OneMoreDelivered(before: seq<Row>, fact: nat, f: Fact, row: Row)
    requires IsDelivered(row) && (Holds(before, row) ==> row.fact < fact)
    ensures var all := before + (if IsDelivery(f) then RowsOf(fact, f) else []);
            && (LastWithKey(all, row) == Some(row) <==>
                  if row.fact == fact then DeliversRow(f, row) else LastWithKey(before, row) == Some(row))
            && (Holds(all, row) ==> Holds(before, row) || row.fact == fact)
  {
    if IsDelivery(f) {
      LastOfTwo(before, RowsOf(fact, f), row);
      OldOrNew(before, RowsOf(fact, f), row);
      if row.fact == fact {
        LastOfFact(fact, f, row);
      } else {
        NotOfFact(fact, f, row);
      }
      hide LastWithKey, Holds, RowsOf, DeliversRow;
    } else {
      assert before + [] == before;
    }
  }

  lemma OldOrNew(a: seq<Row>, b: seq<Row>, row: Row)
    ensures Holds(a + b, row) <==> Holds(a, row) || Holds(b, row)
    ensures LastWithKey(b, row) == Some(row) ==> Holds(b, row)
    ensures LastWithKey(a, row) == Some(row) ==> Holds(a, row)
  {
  }

  lemma KeyOfPosition(p: Profile, b: Bases, keys: Keys, i: nat)
    requires KeysAgree(p, b, keys) && i < |AllFacts(p)|
    ensures FactPk(keys, AllFacts(p)[i].id) == Some(b.fact + i)
  {
    hide AllFacts;
    assert FactKey(p, b, b.fact + i, AllFacts(p)[i].id);
  }

  // ---------------------------------------------------------------- the tables after an import

  /** All tables after an import: whatever was there stays, and besides there are exactly the expected
      rows and, per delivery fact, its role and the last organization of each span. */
  lemma TablesAfterAnImport(rows: seq<Row>, profile: nat, p: Profile, row: Row)
    requires Resolves(KeysFor(rows, profile, p), p) && FactsExist(rows)
    ensures var b := BasesOf(rows, profile);
            row in Imported(rows, profile, p) <==>
              || row in rows
              || (!IsDelivered(row) && Expected(p, b, row))
              || (IsDelivered(row) && FactAt(p, b, row.fact) && DeliversRow(FactBy(p, b, row.fact), row))
  {
    hide *;
    var (b, keys, facts) := (BasesOf(rows, profile), KeysFor(rows, profile, p), AllFacts(p));
    ResolvedProjections(keys, p);
    DictionariesAgree(rows, profile, p);
    RowsOfAnImport(rows, profile, p, row);
    KeysHaveFacts(rows, profile, p);
    UpsertedRows(WithProjections(rows, profile, p), DeliveryRows(keys, facts), row);
    WhatIsImported(rows, profile, p);
    if IsDelivered(row) {
      NotExpected(p, b, row);
      OldDeliveries(rows, row);
      LastDelivered(p, b, keys, |facts|, row);
      assert facts[..|facts|] == facts;
      KeysInRange(p, b, row);
      BaseOfFacts(rows, profile);
    } else {
      OnlyDelivered(DeliveryRows(keys, facts), row);
    }
  }

  lemma KeysHaveFacts(rows: seq<Row>, profile: nat, p: Profile)
    ensures forall f :: f in AllFacts(p) ==> f.id in KeysFor(rows, profile, p).factIds
  {
    FactsHaveIds(KeysFor(rows, profile, p), AllFacts(p));
  }

  lemma WhatIsImported(rows: seq<Row>, profile: nat, p: Profile)
    requires Resolves(KeysFor(rows, profile, p), p)
    ensures forall f :: f in AllFacts(p) ==> f.id in KeysFor(rows, profile, p).factIds
    ensures Imported(rows, profile, p)
         == UpsertAll(WithProjections(rows, profile, p), DeliveryRows(KeysFor(rows, profile, p), AllFacts(p)))
  {
    KeysHaveFacts(rows, profile, p);
    hide AllFacts, WithProjections, UpsertAll, DeliveryRows, KeysFor, Resolves;
  }

  lemma NotExpected(p: Profile, b: Bases, row: Row)
    requires IsDelivered(row)
    ensures !Expected(p, b, row)
  {
    hide AllFacts, HeadKey, FacetsBefore;
  }

  lemma OldDeliveries(rows: seq<Row>, row: Row)
    requires FactsExist(rows) && IsDelivered(row)
    ensures row in rows ==> row.fact < Count(rows, FactOccurrence)
  {
    hide Count;
  }

  lemma KeysInRange(p: Profile, b: Bases, row: Row)
    requires IsDelivered(row)
    ensures row.RoleRow? || row.OrganizationRow?
    ensures FactAt(p, b, row.fact) <==> b.fact <= row.fact < b.fact + |AllFacts(p)|
    ensures FactAt(p, b, row.fact) ==> FactBy(p, b, row.fact) == AllFacts(p)[row.fact - b.fact]
  {
  }

  lemma BaseOfFacts(rows: seq<Row>, profile: nat)
    ensures BasesOf(rows, profile).fact == Count(rows, FactOccurrence)
  {
  }

  lemma OnlyDelivered(more: seq<Row>, row: Row)
    requires Keyed(more) && !IsDelivered(row)
    ensures !Holds(more, row)
  {
  }
}
